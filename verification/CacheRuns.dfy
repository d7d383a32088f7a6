/** Whole runs of the cache: any interleaving of client calls, device activity and flushes. */
module CacheRuns {
  import opened Lists
  import opened CacheModel
  import opened CacheProofs

  datatype Step =
    | DoAread(addr: Chk, dts: seq<Option<Tok>>, ct: Option<Tok>)
    | DoEblank
    | DoRelease(id: BufId)
    | DoAbort(id: BufId, tok: Option<Tok>)
    | DoComplete(t: Tok, ret: int)
    | DoScribble(t: Tok, data: seq<Byte>)   // the device writes into a buffer it still owns
    | DoFill(id: BufId, data: seq<Byte>)    // a client writes into its blank buffer
    | DoFlush(ret: int)

  /** What the callers, the pools and the device may do. */
  ghost predicate Enabled(s: Sys, p: Step, disk: Disk) {
    match p
    case DoAread(_, dts, ct) =>
      |dts| == s.readahead + 1 && FreshToks(s, dts, 0) && (ct.Some? ==> ct.value !in s.waits)
    case DoEblank => true
    case DoRelease(id) => id < |s.ent| && s.held[id] > |s.ent[id].chain|
    case DoAbort(id, tok) =>
      id < |s.ent| && if tok.Some? then tok.value in s.waits && s.waits[tok.value] == id
                      else s.held[id] > |s.ent[id].chain|
    case DoComplete(t, ret) => t in s.dev && s.dev[t].buf < |s.ent| && DeviceContract(s, t, ret, disk)
    case DoScribble(t, _) => t in s.dev
    case DoFill(id, _) => id < |s.ent| && s.held[id] > 0 && s.ent[id].addr == 0
    case DoFlush(_) => s.alist != []
  }

  ghost function Apply(s: Sys, p: Step, disk: Disk): Sys
    requires Inv(s, disk) && Enabled(s, p, disk)
  {
    match p
    case DoAread(addr, dts, ct) => Aread(s, addr, dts, ct).0
    case DoEblank => Eblank(s).0
    case DoRelease(id) => MayRelease(s, id, None, disk); Release(s, id)
    case DoAbort(id, tok) => MayRelease(s, id, tok, disk); Abort(s, id, tok)
    case DoComplete(t, ret) => Complete(s, t, ret)
    case DoScribble(t, data) => SetEnt(s, s.dev[t].buf, s.ent[s.dev[t].buf].(buf := data))
    case DoFill(id, data) => SetEnt(s, id, s.ent[id].(buf := data))
    case DoFlush(ret) => FlushFirst(s, ret)
  }

  /** A caller without a waiting token holds no entry whose read is in flight, so none of the
      BUG_ON checks of the two release functions can fire. */
  lemma MayRelease(s: Sys, id: BufId, tok: Option<Tok>, disk: Disk)
    requires Inv(s, disk) && Enabled(s, DoAbort(id, tok), disk)
    ensures s.ent[id].refcount > 0
    ensures tok.None? ==> s.ent[id].t.None?
    ensures tok.Some? ==> s.ent[id].t.Some? && tok.value in s.ent[id].chain
    ensures MayDeref(s, id, tok, None)
  {
    assert Open(0);
    assert EntryOk(s.ent[id], s.held[id], id in s.alist, id in s.free, false, disk);
  }

  lemma BufferWriteKeeps(s: Sys, id: BufId, data: seq<Byte>, disk: Disk)
    requires Inv(s, disk) && id < |s.ent| && (s.ent[id].t.Some? || (s.held[id] > 0 && s.ent[id].addr == 0))
    ensures Inv(SetEnt(s, id, s.ent[id].(buf := data)), disk)
  {
    assert Open(0);
    var s' := SetEnt(s, id, s.ent[id].(buf := data));
    assert EntryOk(s.ent[id], s.held[id], id in s.alist, id in s.free, false, disk);
    EntriesPoint(s, s', id, disk, None, None);
    AddrsSame(s, s');
    WaitSame(s.ent, s.waits, id, s'.ent[id]);
    DevSame(s.ent, s.dev, id, s'.ent[id]);
    RefPoint(s.ent, id, s'.ent[id]);
  }

  /** Every step keeps the invariant. */
  lemma StepKeeps(s: Sys, p: Step, disk: Disk)
    requires Inv(s, disk) && Enabled(s, p, disk)
    ensures Inv(Apply(s, p, disk), disk)
  {
    match p
    case DoAread(addr, dts, ct) => AreadKeeps(s, addr, dts, ct, disk);
    case DoEblank =>
      if s.mounted && s.free != [] {
        BlankFreshKeeps(s, disk);
      } else if s.mounted && FirstIdle(s.alist, s.ent).Some? {
        BlankEvictKeeps(s, FirstIdle(s.alist, s.ent).value, disk);
      }
    case DoRelease(id) => MayRelease(s, id, None, disk); DerefKeeps(s, id, None, !s.ent[id].invalid, disk, None);
    case DoAbort(id, tok) =>
      MayRelease(s, id, tok, disk);
      DerefKeeps(s, id, tok, !(s.ent[id].t.None? && s.ent[id].invalid), disk, None);
    case DoComplete(t, ret) => CompleteKeeps(s, t, ret, disk);
    case DoScribble(t, data) => assert Open(0); BufferWriteKeeps(s, s.dev[t].buf, data, disk);
    case DoFill(id, data) => BufferWriteKeeps(s, id, data, disk);
    case DoFlush(ret) => FlushFirstKeeps(s, ret, disk);
  }

  lemma InitInv(n: nat, htlen: nat, volsize: Chk, readahead: nat, disk: Disk)
    requires htlen > 0
    ensures Inv(Init(n, htlen, volsize, readahead), disk)
    ensures var s := Init(n, htlen, volsize, readahead);
      |s.ent| == |s.free| == n && |s.clist| == htlen && s.mounted && s.volsize == volsize && s.readahead == readahead
  {
    var s := Init(n, htlen, volsize, readahead);
    assert forall i :: 0 <= i < n ==> s.free[i] == i;
    forall i | 0 <= i < n ensures i in s.free { assert s.free[i] == i; }
    assert Referenced(s.ent) == {};
  }

  /** s' is what a run of steps, each enabled where it is taken, makes of s. */
  ghost predicate Runs(s: Sys, steps: seq<Step>, s': Sys, disk: Disk)
    requires Inv(s, disk)
    decreases |steps|
  {
    if steps == [] then s' == s
    else
      && Enabled(s, steps[0], disk)
      && (StepKeeps(s, steps[0], disk); Runs(Apply(s, steps[0], disk), steps[1..], s', disk))
  }

  lemma {:induction false} RunsAppend(s: Sys, steps: seq<Step>, s1: Sys, p: Step, disk: Disk)
    requires Inv(s, disk) && Runs(s, steps, s1, disk) && Inv(s1, disk) && Enabled(s1, p, disk)
    ensures Runs(s, steps + [p], Apply(s1, p, disk), disk)
    decreases |steps|
  {
    if steps == [] {
      StepKeeps(s, p, disk);
      assert ([p])[1..] == [];
    } else {
      StepKeeps(s, steps[0], disk);
      RunsAppend(Apply(s, steps[0], disk), steps[1..], s1, p, disk);
      assert (steps + [p])[1..] == steps[1..] + [p];
    }
  }

  /** The invariant holds in every reachable state. */
  lemma {:induction false} RunKeeps(s: Sys, steps: seq<Step>, s': Sys, disk: Disk)
    requires Inv(s, disk) && Runs(s, steps, s', disk)
    ensures Inv(s', disk)
    decreases |steps|
  {
    if steps != [] {
      StepKeeps(s, steps[0], disk);
      RunKeeps(Apply(s, steps[0], disk), steps[1..], s', disk);
    }
  }

  /* ---- What the invariant means ---- */

  ghost predicate Listed(s: Sys, id: BufId) {
    exists h :: 0 <= h < |s.clist| && id in s.clist[h]
  }

  ghost predicate IsFree(s: Sys, id: BufId)
    requires id < |s.ent|
  {
    id in s.free && id !in s.alist && !Listed(s, id) && s.ent[id].refcount == 0 && s.ent[id].t.None?
  }

  ghost predicate IsAvailable(s: Sys, id: BufId)
    requires id < |s.ent| && |s.clist| > 0
  {
    id !in s.free && id in s.alist && id in s.clist[HtIndex(s, s.ent[id].addr)] && s.ent[id].refcount == 0
  }

  ghost predicate IsReferenced(s: Sys, id: BufId)
    requires id < |s.ent| && |s.clist| > 0
  {
    id !in s.free && id !in s.alist && id in s.clist[HtIndex(s, s.ent[id].addr)] && s.ent[id].refcount > 0
  }

  ghost predicate IsBlank(s: Sys, id: BufId)
    requires id < |s.ent|
  {
    id !in s.free && id !in s.alist && !Listed(s, id) && s.ent[id].refcount > 0 && s.ent[id].addr == 0
  }

  /** In every reachable state each buffer is in exactly one class (they exclude each other by
      definition), an entry is on no collision list but its own, and no chunk has two entries. */
  lemma BufferClass(s: Sys, id: BufId, disk: Disk)
    requires Inv(s, disk) && id < |s.ent|
    ensures IsFree(s, id) || IsAvailable(s, id) || IsReferenced(s, id) || IsBlank(s, id)
    ensures forall h :: 0 <= h < |s.clist| && id in s.clist[h] ==> h == HtIndex(s, s.ent[id].addr)
    ensures forall j :: 0 <= j < |s.ent| && j !in s.free && id !in s.free && s.ent[j].addr == s.ent[id].addr != 0 ==> j == id
  {
    assert Open(0);
    assert EntryOk(s.ent[id], s.held[id], id in s.alist, id in s.free, false, disk);
    assert forall h :: 0 <= h < |s.clist| ==> (id in s.clist[h] <==> InBucket(Addrs(s), id, h, |s.clist|));
    var h := HtIndex(s, s.ent[id].addr);
    assert id in s.clist[h] <==> Addrs(s)[id] != 0;
    forall j | 0 <= j < |s.ent| && j !in s.free && id !in s.free && s.ent[j].addr == s.ent[id].addr != 0 ensures j == id {
      assert Addrs(s)[j] == Addrs(s)[id];
    }
  }

  /** The two counters are the sizes of the classes. */
  lemma Counters(s: Sys, disk: Disk)
    requires Inv(s, disk)
    ensures s.nbEntries == |set id | 0 <= id < |s.ent| && id !in s.free|
    ensures s.nbRef == |set id | 0 <= id < |s.ent| && s.ent[id].refcount > 0|
  {
    assert Open(0);
    UsedSize(s.free, |s.ent|);
  }

  ghost function Range(n: nat): (r: set<BufId>)
    ensures |r| == n && forall i: BufId :: i in r <==> i < n
  {
    if n == 0 then {} else Range(n - 1) + {n - 1}
  }

  lemma UsedSize(free: seq<BufId>, n: nat)
    requires NoDup(free) && Below(free, n)
    ensures |set id | 0 <= id < n && id !in free| + |free| == n
  {
    var used, f := set id | 0 <= id < n && id !in free, set id | id in free;
    NoDupMultiset(free);
    assert used == Range(n) - f && f <= Range(n);
  }

  /* ---- Protection of pinned buffers ---- */

  /** A pinned entry keeps its chunk, and once loaded, while in use, its contents. */
  predicate Kept(e: Entry, e': Entry) {
    && e'.addr == e.addr
    && (e.t.None? && e'.refcount > 0 ==>
          e'.t.None? && e'.invalid == e.invalid && (e.addr != 0 ==> e'.buf == e.buf))
  }

  ghost predicate AllKept(ent: seq<Entry>, ent': seq<Entry>) {
    |ent'| == |ent| && forall id :: 0 <= id < |ent| && Pinned(ent[id]) ==> Kept(ent[id], ent'[id])
  }

  /** No step evicts, re-addresses or returns to the pool a buffer that a client holds or the device
      is filling, unless the step itself ends that pin. */
  ghost predicate Protects(s: Sys, s': Sys, p: Step) {
    && AllKept(s.ent, s'.ent)
    && (forall id :: 0 <= id < |s'.ent| && Pinned(s'.ent[id]) ==> id !in s'.free)
    && DevKept(s, s', p)
    && (forall t :: t in s.dev && !EndsRead(s, t, p) ==> StillFilling(s', t, s.dev[t]))
  }

  /** The device still owns the buffer, for the same chunk, and the buffer is in the cache. */
  ghost predicate StillFilling(s: Sys, t: Tok, q: Request) {
    && t in s.dev && s.dev[t] == q && q.buf < |s.ent| && q.buf !in s.free
    && s.ent[q.buf].t == Some(t) && s.ent[q.buf].addr == q.addr
  }

  lemma InFlight(s: Sys, t: Tok, disk: Disk)
    requires Inv(s, disk) && t in s.dev
    ensures StillFilling(s, t, s.dev[t])
  {
    assert Open(0);
    var id := s.dev[t].buf;
    assert EntryOk(s.ent[id], s.held[id], id in s.alist, id in s.free, false, disk);
  }

  lemma InvUnpooled(s: Sys, disk: Disk)
    requires Inv(s, disk)
    ensures forall id :: 0 <= id < |s.ent| && Pinned(s.ent[id]) ==> id !in s.free
  {
    assert Open(0);
    forall id | 0 <= id < |s.ent| && Pinned(s.ent[id]) ensures id !in s.free {
      assert EntryOk(s.ent[id], s.held[id], id in s.alist, id in s.free, false, disk);
    }
  }

  /** What shfs_cache_aread does to the entries in use, and what it hands out. */
  ghost predicate Effect(s: Sys, s': Sys, r: AreadResult, addr: Chk, ct: Option<Tok>) {
    && |s'.ent| == |s.ent|
    && (forall t :: t in s.dev ==> t in s'.dev && s'.dev[t] == s.dev[t])
    && (forall i :: 0 <= i < |s.ent| && Pinned(s.ent[i]) ==> SameBuffer(s.ent[i], s'.ent[i]))
    && (r.Fail? ==> s'.held == s.held && s'.waits == s.waits)
    && (r.Hit? ==> s'.held == s.held + multiset{r.id} && s'.waits == s.waits)
    && (r.Wait? ==> s'.held == s.held + multiset{r.id} && ct == Some(r.tok) && s'.waits == s.waits[r.tok := r.id])
    && (!r.Fail? ==> r.id < |s.ent| && s'.ent[r.id].addr == addr && (r.Hit? <==> s'.ent[r.id].t.None?))
  }

  predicate SameBuffer(e: Entry, e': Entry) {
    e'.addr == e.addr && e'.invalid == e.invalid && e'.t == e.t && e'.buf == e.buf
  }

  lemma DeliverEffect(s: Sys, id: BufId, ct: Option<Tok>)
    requires Shape(s) && id < |s.ent| && s.ent[id].refcount > 0
    ensures var (s', r) := Deliver(s, id, ct);
      && |s'.ent| == |s.ent| && s'.dev == s.dev
      && (forall i :: 0 <= i < |s.ent| ==> SameBuffer(s.ent[i], s'.ent[i]))
      && (r.Fail? ==> s'.held == s.held - multiset{id} && s'.waits == s.waits)
      && (r.Hit? ==> s'.held == s.held && s'.waits == s.waits)
      && (r.Wait? ==> s'.held == s.held && ct == Some(r.tok) && s'.waits == s.waits[r.tok := id])
      && (!r.Fail? ==> r.id == id && (r.Hit? <==> s.ent[id].t.None?))
  {
  }

  lemma ServeApart(s: Sys, id: BufId, addr: Chk, dts: seq<Option<Tok>>, disk: Disk)
    requires Inv(s, disk) && |dts| == s.readahead + 1 && FreshToks(s, dts, 1)
    requires id < |s.ent| && Addrs(s)[id] == addr > 0
    ensures Apart(Ref(s, id), Readahead(Ref(s, id), addr, 1, dts))
  {
    RefKeeps(s, id, disk);
    ReadaheadKeeps(Ref(s, id), addr, 1, dts, id, disk);
  }

  lemma ServeEffect(s: Sys, s3: Sys, id: BufId, ct: Option<Tok>)
    requires Shape(s) && Shape(s3) && id < |s.ent| && Apart(Ref(s, id), s3)
    ensures var (s', r) := Deliver(s3, id, ct); Effect(s, s', r, s.ent[id].addr, ct)
  {
    var s2 := Ref(s, id);
    assert Pinned(s2.ent[id]) && s2.held - multiset{id} == s.held;
    DeliverEffect(s3, id, ct);
  }

  lemma AreadEffect(s: Sys, addr: Chk, dts: seq<Option<Tok>>, ct: Option<Tok>, disk: Disk)
    requires Inv(s, disk) && Enabled(s, DoAread(addr, dts, ct), disk)
    ensures var (s', r) := Aread(s, addr, dts, ct); Effect(s, s', r, addr, ct)
  {
    if s.mounted && 0 < addr <= s.volsize {
      var (s1, r) := Obtain(s, addr, dts[0]);
      ObtainKeeps(s, addr, dts[0], disk);
      if r.Some? {
        ServeApart(s1, r.value, addr, dts, disk);
        ServeEffect(s1, Readahead(Ref(s1, r.value), addr, 1, dts), r.value, ct);
      }
    }
  }

  lemma EblankApart(s: Sys, disk: Disk)
    requires Shape(s) && Entries(s, disk, None)
    ensures var s' := Eblank(s).0;
      |s'.ent| == |s.ent| && s'.dev == s.dev && forall i :: 0 <= i < |s.ent| && Pinned(s.ent[i]) ==> s'.ent[i] == s.ent[i]
  {
    if s.mounted && s.free != [] {
      var id := s.free[0];
      assert EntryOk(s.ent[id], s.held[id], id in s.alist, id in s.free, false, disk);
    } else if s.mounted && FirstIdle(s.alist, s.ent).Some? {
      var id := FirstIdle(s.alist, s.ent).value;
      assert EntryOk(s.ent[id], s.held[id], id in s.alist, id in s.free, false, disk);
    }
  }

  lemma CompleteKept(s: Sys, t: Tok, ret: int)
    requires Shape(s) && t in s.dev && s.dev[t].buf < |s.ent| && DevOk(s.ent, s.dev)
    ensures AllKept(s.ent, Complete(s, t, ret).ent)
    ensures Complete(s, t, ret).dev == s.dev - {t}
  {
  }

  lemma FlushKept(s: Sys, ret: int)
    requires Shape(s) && s.alist != [] && s.ent[s.alist[0]].refcount == 0
    requires DevOk(s.ent, s.dev)
    ensures AllKept(s.ent, FlushFirst(s, ret).ent) && DevKept(s, FlushFirst(s, ret), DoFlush(ret))
  {
  }

  lemma DerefKept(s: Sys, id: BufId, tok: Option<Tok>, keep: bool)
    requires Shape(s) && id < |s.ent| && s.ent[id].refcount > 0
    ensures AllKept(s.ent, Deref(s, id, tok, keep).ent) && Deref(s, id, tok, keep).dev == s.dev
  {
  }

  lemma WriteKept(s: Sys, id: BufId, data: seq<Byte>)
    requires id < |s.ent| && (s.ent[id].t.Some? || s.ent[id].addr == 0)
    ensures AllKept(s.ent, s.ent[id := s.ent[id].(buf := data)])
  {
  }

  /** The step ends the device's read t: its completion, or the flush of its buffer, which waits for it. */
  predicate EndsRead(s: Sys, t: Tok, p: Step)
    requires t in s.dev
  {
    (p.DoComplete? && p.t == t) || (p.DoFlush? && s.alist != [] && s.dev[t].buf == s.alist[0])
  }

  ghost predicate DevKept(s: Sys, s': Sys, p: Step) {
    forall t :: t in s.dev && !EndsRead(s, t, p) ==> t in s'.dev && s'.dev[t] == s.dev[t]
  }

  lemma EblankKept(s: Sys, disk: Disk)
    requires Inv(s, disk)
    ensures AllKept(s.ent, Eblank(s).0.ent) && Eblank(s).0.dev == s.dev
  {
    hide Eblank;
    assert Entries(s, disk, None) by { assert Open(0); }
    EblankApart(s, disk);
  }

  lemma ClientKept(s: Sys, p: Step, disk: Disk)
    requires Inv(s, disk) && Enabled(s, p, disk) && (p.DoAread? || p.DoEblank? || p.DoRelease? || p.DoAbort? || p.DoFill?)
    ensures AllKept(s.ent, Apply(s, p, disk).ent) && DevKept(s, Apply(s, p, disk), p)
  {
    hide Aread, Eblank, Deref;
    match p
    case DoAread(addr, dts, ct) => AreadEffect(s, addr, dts, ct, disk);
    case DoEblank => EblankKept(s, disk);
    case DoRelease(id) => MayRelease(s, id, None, disk); DerefKept(s, id, None, !s.ent[id].invalid);
    case DoAbort(id, tok) =>
      MayRelease(s, id, tok, disk);
      DerefKept(s, id, tok, !(s.ent[id].t.None? && s.ent[id].invalid));
    case DoFill(id, data) => WriteKept(s, id, data);
  }

  lemma DeviceKept(s: Sys, p: Step, disk: Disk)
    requires Inv(s, disk) && Enabled(s, p, disk) && (p.DoComplete? || p.DoScribble? || p.DoFlush?)
    ensures AllKept(s.ent, Apply(s, p, disk).ent) && DevKept(s, Apply(s, p, disk), p)
  {
    hide Complete, FlushFirst, AllKept;
    assert DevOk(s.ent, s.dev) by { assert Open(0); }
    match p
    case DoComplete(t, ret) => CompleteKept(s, t, ret);
    case DoScribble(t, data) => WriteKept(s, s.dev[t].buf, data);
    case DoFlush(ret) =>
      var id := s.alist[0];
      assert EntryOk(s.ent[id], s.held[id], id in s.alist, id in s.free, false, disk) by { assert Open(0); }
      FlushKept(s, ret);
  }

  lemma StepProtects(s: Sys, p: Step, disk: Disk)
    requires Inv(s, disk) && Enabled(s, p, disk)
    ensures Protects(s, Apply(s, p, disk), p)
  {
    StepKeeps(s, p, disk);
    if p.DoComplete? || p.DoScribble? || p.DoFlush? { DeviceKept(s, p, disk); } else { ClientKept(s, p, disk); }
    var s' := Apply(s, p, disk);
    InvUnpooled(s', disk);
    forall t | t in s.dev && !EndsRead(s, t, p) ensures StillFilling(s', t, s.dev[t]) { InFlight(s', t, disk); }
  }

  /* ---- One device read, many waiters ---- */

  /** The BUG_ON checks of the completion callback hold: the token is the entry's own, and an entry
      nobody holds has no waiter.  The tokens waiting for it are exactly its chain, each once, one
      for each reference. */
  lemma WaitersAreChain(s: Sys, t: Tok, disk: Disk)
    requires Inv(s, disk) && t in s.dev
    ensures var id := s.dev[t].buf; var e := s.ent[id];
      && e.t == Some(t) && e.addr == s.dev[t].addr && !(e.refcount == 0 && e.chain != [])
      && |e.chain| == e.refcount == s.held[id] && NoDup(e.chain)
      && (forall w :: w in e.chain <==> w in s.waits && s.waits[w] == id)
  {
    assert Open(0);
    var id := s.dev[t].buf;
    assert EntryOk(s.ent[id], s.held[id], id in s.alist, id in s.free, false, disk);
  }

  /** When a read completes every chained waiter is notified once, in order, with the device's
      result; no other token is notified or dropped and no reference is lost. */
  lemma CompletionNotifies(s: Sys, t: Tok, ret: int, disk: Disk)
    requires Inv(s, disk) && Enabled(s, DoComplete(t, ret), disk)
    ensures var (chain, s') := (s.ent[s.dev[t].buf].chain, Complete(s, t, ret));
      && s'.notified == s.notified + Notes(chain, ret)
      && s'.waits == Without(s.waits, chain)
      && s'.held == s.held
  {
    WaitersAreChain(s, t, disk);
    var chain := s.ent[s.dev[t].buf].chain;
    if chain == [] {
      assert s.notified + Notes(chain, ret) == s.notified;
      assert Without(s.waits, chain) == s.waits;
    }
  }

  /** Over a whole run from an empty log: every registered waiter was notified, was aborted, or
      still waits, and is accounted for once. */
  lemma WaitersConserved(n: nat, htlen: nat, volsize: Chk, readahead: nat, steps: seq<Step>, s: Sys, disk: Disk)
    requires htlen > 0 && (InitInv(n, htlen, volsize, readahead, disk); Runs(Init(n, htlen, volsize, readahead), steps, s, disk))
    ensures s.registered == s.aborted + multiset(NoteToks(s.notified)) + multiset(s.waits.Keys)
    ensures Inv(s, disk)
  {
    InitInv(n, htlen, volsize, readahead, disk);
    RunKeeps(Init(n, htlen, volsize, readahead), steps, s, disk);
    assert Open(0);
  }

  /** The cache agrees with the disk: an entry on a collision list with no I/O token and no failed read
      holds exactly the chunk it stands for. */
  lemma CacheIsDisk(s: Sys, h: nat, id: BufId, disk: Disk)
    requires Inv(s, disk) && h < |s.clist| && id in s.clist[h]
    ensures id < |s.ent| && s.ent[id].addr != 0 && h == HtIndex(s, s.ent[id].addr)
    ensures s.ent[id].t.None? && !s.ent[id].invalid ==> s.ent[id].buf == disk(s.ent[id].addr)
  {
    assert Open(0);
    assert InBucket(Addrs(s), id, h, |s.clist|);
    assert EntryOk(s.ent[id], s.held[id], id in s.alist, id in s.free, false, disk);
  }

  /** Every buffer is referenced or being filled. */
  ghost predicate Exhausted(s: Sys)
    requires Shape(s)
  {
    s.free == [] && FirstIdle(s.alist, s.ent).None?
  }

  /** What makes a request for a chunk fail: the chunk is outside the volume; or it is not cached and there
      is no buffer or no device token for it; or it has to be waited for and there is no token to wait with. */
  ghost predicate Starved(s: Sys, addr: Chk, dt: Option<Tok>, ct: Option<Tok>)
    requires Shape(s)
  {
    var f := Find(s, addr);
    (f.None? && (Exhausted(s) || dt.None?)) || (ct.None? && (f.None? || (f.value < |s.ent| && s.ent[f.value].t.Some?)))
  }

  /** A buffer was there for the chunk, but its read could not be set up. */
  ghost predicate SetupFailed(s: Sys, addr: Chk, dt: Option<Tok>)
    requires Shape(s)
  {
    Find(s, addr).None? && !Exhausted(s) && dt.None?
  }

  predicate Readable(s: Sys, addr: Chk) { s.mounted && 0 < addr <= s.volsize }

  /** A request fails exactly then. */
  lemma FailsExactly(s: Sys, addr: Chk, dts: seq<Option<Tok>>, ct: Option<Tok>, disk: Disk)
    requires Inv(s, disk) && Enabled(s, DoAread(addr, dts, ct), disk)
    ensures Aread(s, addr, dts, ct).1.Fail? <==> !Readable(s, addr) || Starved(s, addr, dts[0], ct)
  {
    hide Readahead, Deliver, FindIn, FirstIdle, Add;
    if Readable(s, addr) {
      var (s1, r) := Obtain(s, addr, dts[0]);
      ObtainKeeps(s, addr, dts[0], disk);
      ObtainFails(s, addr, dts[0], disk);
      if r.Some? {
        ServeApart(s1, r.value, addr, dts, disk);
        ServeFails(s1, Readahead(Ref(s1, r.value), addr, 1, dts), r.value, ct);
      }
    }
  }

  lemma ServeFails(s: Sys, s3: Sys, id: BufId, ct: Option<Tok>)
    requires Shape(s) && Shape(s3) && id < |s.ent| && Apart(Ref(s, id), s3)
    ensures Deliver(s3, id, ct).1.Fail? <==> s.ent[id].t.Some? && ct.None?
  {
    assert Pinned(Ref(s, id).ent[id]);
  }

  lemma ObtainFails(s: Sys, addr: Chk, dt: Option<Tok>, disk: Disk)
    requires Inv(s, disk) && addr > 0 && (dt.Some? ==> s.Fresh(dt.value))
    ensures var (s1, r) := Obtain(s, addr, dt);
      && (r.None? <==> Find(s, addr).None? && (Exhausted(s) || dt.None?))
      && (r.Some? ==> (s1.ent[r.value].t.None? <==> Find(s, addr).Some? && s.ent[r.value].t.None?))
      && (r.Some? && Find(s, addr).Some? ==> r == Find(s, addr))
  {
    if Find(s, addr).None? {
      assert Entries(s, disk, None) by { assert Open(0); }
      AddApart(s, addr, dt, disk, None);
    }
  }

  /** A chunk handed out as ready is the chunk on the disk, or is flagged invalid. */
  lemma HitIsDisk(s: Sys, addr: Chk, dts: seq<Option<Tok>>, ct: Option<Tok>, disk: Disk)
    requires Inv(s, disk) && Enabled(s, DoAread(addr, dts, ct), disk) && Aread(s, addr, dts, ct).1.Hit?
    ensures var (s', r) := Aread(s, addr, dts, ct);
      && r.id < |s'.ent| && s'.ent[r.id].addr == addr && s'.ent[r.id].t.None?
      && (s'.ent[r.id].invalid || s'.ent[r.id].buf == disk(addr))
  {
    var (s', r) := Aread(s, addr, dts, ct);
    StepKeeps(s, DoAread(addr, dts, ct), disk);
    AreadEffect(s, addr, dts, ct, disk);
    assert EntryOk(s'.ent[r.id], s'.held[r.id], r.id in s'.alist, r.id in s'.free, false, disk) by { assert Open(0); }
    AreadNeverZero(s, addr, dts, ct);
  }

  /** A buffer that nobody held when it was handed out as ready is not a failed read. */
  lemma HitUnheld(s: Sys, addr: Chk, dts: seq<Option<Tok>>, ct: Option<Tok>, disk: Disk)
    requires Inv(s, disk) && Enabled(s, DoAread(addr, dts, ct), disk) && Aread(s, addr, dts, ct).1.Hit?
    ensures var (s', r) := Aread(s, addr, dts, ct); r.id < |s.ent| == |s'.ent| && (s.held[r.id] == 0 ==> !s'.ent[r.id].invalid)
  {
    hide Readahead, Deliver, FindIn, FirstIdle, Add;
    AreadNeverZero(s, addr, dts, ct);
    var (s1, r) := Obtain(s, addr, dts[0]);
    ObtainKeeps(s, addr, dts[0], disk);
    ObtainFails(s, addr, dts[0], disk);
    ServeApart(s1, r.value, addr, dts, disk);
    var s3 := Readahead(Ref(s1, r.value), addr, 1, dts);
    ServeFails(s1, s3, r.value, ct);
    ServeHit(s1, s3, r.value, ct);
    assert EntryOk(s1.ent[r.value], s1.held[r.value], r.value in s1.alist, r.value in s1.free, false, disk) by { assert Open(0); }
  }

  lemma ServeHit(s: Sys, s3: Sys, id: BufId, ct: Option<Tok>)
    requires Shape(s) && Shape(s3) && id < |s.ent| && Apart(Ref(s, id), s3)
    ensures var (s', r) := Deliver(s3, id, ct);
      r.Hit? ==> r.id == id && |s'.ent| == |s.ent| && s'.ent[id].invalid == s.ent[id].invalid && s.ent[id].t.None?
  {
    assert Pinned(Ref(s, id).ent[id]);
  }

  lemma AreadNeverZero(s: Sys, addr: Chk, dts: seq<Option<Tok>>, ct: Option<Tok>)
    requires Shape(s) && |dts| == s.readahead + 1 && !Aread(s, addr, dts, ct).1.Fail?
    ensures 0 < addr <= s.volsize && s.mounted
  {
  }

  lemma EblankHeld(s: Sys)
    requires Shape(s)
    ensures s.held <= Eblank(s).0.held && Eblank(s).0.waits == s.waits
  {
  }

  lemma CompleteHeld(s: Sys, t: Tok, ret: int)
    requires Shape(s) && t in s.dev && s.dev[t].buf < |s.ent|
    ensures Complete(s, t, ret).held == s.held
  {
  }

  /** Only a release takes a reference away, and it takes one. */
  lemma StepHeld(s: Sys, p: Step, disk: Disk)
    requires Inv(s, disk) && Enabled(s, p, disk)
    ensures (if p.DoRelease? || p.DoAbort? then s.held - multiset{p.id} else s.held) <= Apply(s, p, disk).held
  {
    match p
    case DoAread(addr, dts, ct) => AreadEffect(s, addr, dts, ct, disk);
    case DoEblank => EblankHeld(s);
    case DoComplete(t, ret) => CompleteHeld(s, t, ret);
    case _ =>
  }

  lemma CompleteWaits(s: Sys, t: Tok, ret: int, disk: Disk)
    requires Inv(s, disk) && Enabled(s, DoComplete(t, ret), disk)
    ensures Complete(s, t, ret).waits == Without(s.waits, s.ent[s.dev[t].buf].chain)
  {
    CompletionNotifies(s, t, ret, disk);
  }

  /** A token stops waiting only by its own abort or by the completion of its read, and starts only
      by being handed out. */
  lemma StepWaits(s: Sys, p: Step, disk: Disk, tok: Tok)
    requires Inv(s, disk) && Enabled(s, p, disk)
    ensures var s' := Apply(s, p, disk);
      && (tok !in s.waits && !(p.DoAread? && p.ct == Some(tok)) ==> tok !in s'.waits)
      && (tok in s.waits && !(p.DoAbort? && p.tok == Some(tok)) ==>
            || (tok in s'.waits && s'.waits[tok] == s.waits[tok])
            || (p.DoComplete? && s.dev[p.t].buf == s.waits[tok] && tok !in s'.waits))
  {
    match p
    case DoAread(addr, dts, ct) => AreadEffect(s, addr, dts, ct, disk);
    case DoEblank => EblankHeld(s);
    case DoComplete(t, ret) =>
      CompleteWaits(s, t, ret, disk);
      WaitersAreChain(s, t, disk);
    case _ =>
  }
}
