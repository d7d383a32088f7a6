/** The chunk cache of shfs_cache.c as a state machine: the cache structure together with its
    environment, i.e. the device requests in flight, the references clients hold and the AIO
    tokens clients wait on.  Default build: caching on, no immediate drop, any read-ahead. */
module CacheModel {
  import opened Lists

  type Chk = nat
  type BufId = nat
  type Tok = nat
  type Disk = Chk -> seq<Byte>

  /** struct shfs_cache_entry.  t is the private device token, chain the tokens of the callers
      that share its completion. */
  datatype Entry = Entry(addr: Chk, refcount: nat, invalid: bool,
                         t: Option<Tok>, chain: seq<Tok>, buf: seq<Byte>)

  /** A read handed to the device: which chunk it will put into which buffer. */
  datatype Request = Request(buf: BufId, addr: Chk)

  /** One waiter told about a completion. */
  datatype Note = Note(tok: Tok, ret: int)

  datatype Sys = Sys(
    ent: seq<Entry>,          // pool objects, by number
    free: seq<BufId>,         // the pool's free list
    alist: seq<BufId>,        // available (loaded, unreferenced) entries
    clist: seq<seq<BufId>>,   // hash table of collision lists
    nbEntries: int,
    nbRef: int,
    mounted: bool,
    volsize: Chk,
    readahead: nat,           // SHFS_CACHE_READAHEAD
    dev: map<Tok, Request>,   // device reads in flight
    held: multiset<BufId>,    // references owned by clients
    waits: map<Tok, BufId>,   // caller tokens not notified and not aborted yet
    registered: multiset<Tok>,
    aborted: multiset<Tok>,
    notified: seq<Note>)
  {
    predicate Fresh(t: Tok) { t !in dev && t !in waits }
  }

  datatype AreadResult = Fail | Hit(id: BufId) | Wait(id: BufId, tok: Tok)

  function HtIndex(s: Sys, addr: Chk): nat
    requires |s.clist| > 0
    ensures HtIndex(s, addr) < |s.clist|
  {
    Idx(addr, |s.clist|)
  }

  /** The hash: the low 32 bits, masked by the power-of-two table length. */
  function Idx(addr: Chk, n: nat): (h: nat)
    requires n > 0
    ensures h < n
  {
    (addr % 0x1_0000_0000) % n
  }

  /* ---- The operations ---- */

  function SetEnt(s: Sys, id: BufId, e: Entry): Sys
    requires id < |s.ent|
  {
    s.(ent := s.ent[id := e])
  }

  ghost predicate Below(l: seq<BufId>, n: nat) {
    forall i :: 0 <= i < |l| ==> l[i] < n
  }

  /** Position-independent lookup on a collision list. */
  function FindIn(l: seq<BufId>, ent: seq<Entry>, addr: Chk): (r: Option<BufId>)
    requires Below(l, |ent|)
    ensures r.Some? ==> r.value in l && ent[r.value].addr == addr
    ensures r.None? ==> forall id :: id in l ==> ent[id].addr != addr
  {
    if l == [] then None
    else if ent[l[0]].addr == addr then Some(l[0])
    else FindIn(l[1..], ent, addr)
  }

  /** First available entry whose I/O has completed: the eviction victim. */
  function FirstIdle(l: seq<BufId>, ent: seq<Entry>): (r: Option<BufId>)
    requires Below(l, |ent|)
    ensures r.Some? ==> r.value in l && ent[r.value].t.None?
    ensures r.None? ==> forall id :: id in l ==> ent[id].t.Some?
  {
    if l == [] then None
    else if ent[l[0]].t.None? then Some(l[0])
    else FirstIdle(l[1..], ent)
  }

  /** Every number on a list is a pool object. */
  ghost predicate Shape(s: Sys) {
    && |s.clist| > 0
    && Below(s.free, |s.ent|) && Below(s.alist, |s.ent|)
    && (forall h :: 0 <= h < |s.clist| ==> Below(s.clist[h], |s.ent|))
  }

  ghost predicate DevShape(s: Sys) {
    forall t :: t in s.dev ==> s.dev[t].buf < |s.ent|
  }

  ghost function Find(s: Sys, addr: Chk): Option<BufId>
    requires Shape(s)
  {
    FindIn(s.clist[HtIndex(s, addr)], s.ent, addr)
  }

  /** A successful lookup moves the entry to the head of its collision list. */
  function Relink(s: Sys, addr: Chk, id: BufId): (r: Sys)
    requires |s.clist| > 0 && id < |s.ent|
    ensures Shape(s) ==> Shape(r)
  {
    var h := HtIndex(s, addr);
    s.(clist := s.clist[h := [id] + Remove(s.clist[h], id)])
  }

  /** A cached entry leaves both lists and returns, as e, to the pool. */
  function Drop(s: Sys, id: BufId, e: Entry): (r: Sys)
    requires |s.clist| > 0 && id < |s.ent|
    ensures Shape(s) ==> Shape(r)
  {
    var h := HtIndex(s, s.ent[id].addr);
    s.(ent := s.ent[id := e], clist := s.clist[h := Remove(s.clist[h], id)], alist := Remove(s.alist, id),
       free := [id] + s.free, nbEntries := s.nbEntries - 1)
  }

  /** What the pool's pick callback makes of an object. */
  function Picked(e: Entry): Entry {
    e.(refcount := 0, invalid := true, t := None, chain := [])
  }

  /** A buffer from the pool starts loading addr and joins both lists. */
  function AddFresh(s: Sys, addr: Chk, t: Tok): (r: Sys)
    requires Shape(s) && s.free != []
    ensures Shape(r)
  {
    var id, h := s.free[0], HtIndex(s, addr);
    s.(ent := s.ent[id := Picked(s.ent[id]).(addr := addr, t := Some(t))],
       free := s.free[1..], nbEntries := s.nbEntries + 1,
       alist := s.alist + [id], clist := s.clist[h := s.clist[h] + [id]],
       dev := s.dev[t := Request(id, addr)])
  }

  /** Entry id moves from its old chunk to addr, to the tail of both lists. */
  function AddEvict(s: Sys, id: BufId, addr: Chk, t: Tok): (r: Sys)
    requires |s.clist| > 0 && id < |s.ent|
    ensures Shape(s) ==> Shape(r)
  {
    var h0, h := HtIndex(s, s.ent[id].addr), HtIndex(s, addr);
    var c := s.clist[h0 := Remove(s.clist[h0], id)];
    s.(ent := s.ent[id := s.ent[id].(addr := addr, t := Some(t))],
       alist := Remove(s.alist, id) + [id], clist := c[h := c[h] + [id]],
       dev := s.dev[t := Request(id, addr)])
  }

  /** shfs_cache_add: dt is the device token, None when the read could not be set up. */
  ghost function Add(s: Sys, addr: Chk, dt: Option<Tok>): (r: (Sys, Option<BufId>))
    requires Shape(s)
    ensures Shape(r.0) && |r.0.ent| == |s.ent| && r.0.readahead == s.readahead && (r.1.Some? ==> r.1.value < |s.ent|)
  {
    if s.free != [] then
      var id := s.free[0];
      if dt.None? then (SetEnt(s, id, Picked(s.ent[id]).(addr := addr)), None)
      else (AddFresh(s, addr, dt.value), Some(id))
    else
      match FirstIdle(s.alist, s.ent)
      case None => (s, None)
      case Some(id) =>
        if dt.None? then (Drop(s, id, s.ent[id].(addr := addr)), None)
        else (AddEvict(s, id, addr, dt.value), Some(id))
  }

  /** One round of the read-ahead loop; the flag says whether to go on. */
  ghost function ReadaheadOne(s: Sys, addr: Chk, dt: Option<Tok>): (r: (Sys, bool))
    requires Shape(s)
    ensures Shape(r.0) && |r.0.ent| == |s.ent| && r.0.readahead == s.readahead
  {
    if addr >= s.volsize then (s, false)
    else
      match Find(s, addr)
      case Some(id) => (Relink(s, addr, id), true)
      case None => var (s1, r) := Add(s, addr, dt); (s1, r.Some?)
  }

  /** shfs_cache_readahead from distance i on; dts[i] is the device's answer for that chunk. */
  ghost function Readahead(s: Sys, addr: Chk, i: nat, dts: seq<Option<Tok>>): (r: Sys)
    requires Shape(s) && |dts| == s.readahead + 1
    ensures Shape(r) && |r.ent| == |s.ent| && r.readahead == s.readahead
    decreases |dts| - i
  {
    if i > s.readahead then s
    else
      var (s1, more) := ReadaheadOne(s, addr + i, dts[i]);
      if more then Readahead(s1, addr, i + 1, dts) else s1
  }

  /** One more reference; the first one takes the entry off the available list. */
  function Ref(s: Sys, id: BufId): (r: Sys)
    requires id < |s.ent|
    ensures Shape(s) ==> Shape(r)
  {
    var e := s.ent[id];
    s.(ent := s.ent[id := e.(refcount := e.refcount + 1)], held := s.held + multiset{id},
       alist := if e.refcount == 0 then Remove(s.alist, id) else s.alist,
       nbRef := if e.refcount == 0 then s.nbRef + 1 else s.nbRef)
  }

  /** One reference less, taking the caller's token (if it still waits) off the chain.  The last
      one makes the entry available again or, when keep is false, returns it to the pool; a blank
      entry (chunk 0) is on no collision list. */
  function Deref(s: Sys, id: BufId, tok: Option<Tok>, keep: bool): Sys
    requires |s.clist| > 0 && id < |s.ent| && s.ent[id].refcount > 0
  {
    var e, h := s.ent[id], HtIndex(s, s.ent[id].addr);
    var last := e.refcount == 1;
    s.(ent := s.ent[id := e.(refcount := e.refcount - 1, chain := if tok.None? then e.chain else Remove(e.chain, tok.value))],
       held := s.held - multiset{id},
       waits := if tok.None? then s.waits else s.waits - {tok.value},
       aborted := if tok.None? then s.aborted else s.aborted + multiset{tok.value},
       nbRef := if last then s.nbRef - 1 else s.nbRef,
       alist := if last && keep then s.alist + [id] else s.alist,
       clist := if last && !keep && e.addr != 0 then s.clist[h := Remove(s.clist[h], id)] else s.clist,
       free := if last && !keep then [id] + s.free else s.free,
       nbEntries := if last && !keep then s.nbEntries - 1 else s.nbEntries)
  }

  /** Appends a caller's token to the entry's chain. */
  function Chain(s: Sys, id: BufId, tok: Tok): Sys
    requires id < |s.ent|
  {
    SetEnt(s, id, s.ent[id].(chain := s.ent[id].chain + [tok]))
      .(waits := s.waits[tok := id], registered := s.registered + multiset{tok})
  }

  /** The entry for addr, looked up or newly loading. */
  ghost function Obtain(s: Sys, addr: Chk, dt: Option<Tok>): (r: (Sys, Option<BufId>))
    requires Shape(s)
    ensures Shape(r.0) && |r.0.ent| == |s.ent| && r.0.readahead == s.readahead && (r.1.Some? ==> r.1.value < |s.ent|)
  {
    var f := Find(s, addr);
    if f.Some? then (Relink(s, addr, f.value), f) else Add(s, addr, dt)
  }

  /** The end of shfs_cache_aread: a loaded entry is handed out, a loading one with a token; without
      a token the reference is dropped again (it is there: the read-ahead drops no reference). */
  ghost function Deliver(s: Sys, id: BufId, ct: Option<Tok>): (Sys, AreadResult)
    requires Shape(s) && id < |s.ent|
  {
    if s.ent[id].t.None? then (s, Hit(id))
    else if ct.Some? then (Chain(s, id, ct.value), Wait(id, ct.value))
    else if s.ent[id].refcount > 0 then (Deref(s, id, None, true), Fail)
    else (s, Fail)
  }

  /** shfs_cache_aread.  dts[0] answers for the chunk itself, dts[1..] for the read-ahead, ct is
      the caller's token (None when the token pool is empty). */
  ghost function Aread(s: Sys, addr: Chk, dts: seq<Option<Tok>>, ct: Option<Tok>): (r: (Sys, AreadResult))
    requires Shape(s) && |dts| == s.readahead + 1
  {
    if !s.mounted || addr == 0 || addr > s.volsize then (s, Fail)
    else
      var (s1, r) := Obtain(s, addr, dts[0]);
      if r.None? then (s1, Fail)
      else Deliver(Readahead(Ref(s1, r.value), addr, 1, dts), r.value, ct)
  }

  /** What shfs_cache_eblank makes of the entry it hands out. */
  function Blanked(e: Entry): Entry {
    e.(refcount := 1, t := None, addr := 0, invalid := true)
  }

  /** shfs_cache_eblank. */
  ghost function Eblank(s: Sys): (r: (Sys, Option<BufId>))
    requires Shape(s)
  {
    if !s.mounted then (s, None)
    else if s.free != [] then (BlankFresh(s), Some(s.free[0]))
    else
      match FirstIdle(s.alist, s.ent)
      case None => (s, None)
      case Some(id) => (BlankEvict(s, id), Some(id))
  }

  function BlankFresh(s: Sys): Sys
    requires Shape(s) && s.free != []
  {
    var id := s.free[0];
    s.(ent := s.ent[id := Blanked(Picked(s.ent[id]))], free := s.free[1..], nbEntries := s.nbEntries + 1,
       nbRef := s.nbRef + 1, held := s.held + multiset{id})
  }

  function BlankEvict(s: Sys, id: BufId): Sys
    requires |s.clist| > 0 && id < |s.ent|
  {
    var h := HtIndex(s, s.ent[id].addr);
    s.(ent := s.ent[id := Blanked(s.ent[id])],
       clist := s.clist[h := Remove(s.clist[h], id)], alist := Remove(s.alist, id),
       nbRef := s.nbRef + 1, held := s.held + multiset{id})
  }

  /** shfs_cache_release. */
  function Release(s: Sys, id: BufId): Sys
    requires |s.clist| > 0 && id < |s.ent| && s.ent[id].refcount > 0
  {
    Deref(s, id, None, !s.ent[id].invalid)
  }

  /** shfs_cache_release_ioabort; tok is the caller's token while it still waits. */
  function Abort(s: Sys, id: BufId, tok: Option<Tok>): Sys
    requires |s.clist| > 0 && id < |s.ent| && s.ent[id].refcount > 0
  {
    Deref(s, id, tok, !(s.ent[id].t.None? && s.ent[id].invalid))
  }

  function Notes(chain: seq<Tok>, ret: int): (r: seq<Note>)
    ensures |r| == |chain| && forall i :: 0 <= i < |r| ==> r[i] == Note(chain[i], ret)
  {
    seq(|chain|, i requires 0 <= i < |chain| => Note(chain[i], ret))
  }

  /** _cce_aiocb for device token t finishing with ret: an unreferenced entry whose read failed is
      destroyed, otherwise every chained caller is notified. */
  function Complete(s: Sys, t: Tok, ret: int): Sys
    requires |s.clist| > 0 && t in s.dev && s.dev[t].buf < |s.ent|
  {
    var id := s.dev[t].buf;
    var e := s.ent[id].(t := None, invalid := ret < 0);
    if e.refcount == 0 && ret < 0 then Drop(s.(dev := s.dev - {t}), id, e)
    else
      s.(ent := s.ent[id := e.(chain := [])], dev := s.dev - {t},
         waits := Without(s.waits, e.chain), notified := s.notified + Notes(e.chain, ret))
  }

  function Without(waits: map<Tok, BufId>, chain: seq<Tok>): map<Tok, BufId> {
    map w | w in waits && w !in chain :: waits[w]
  }

  /** One round of shfs_cache_flush_alist: the head of the available list goes back to the pool,
      after its read, if one is in flight, has ended with ret. */
  function FlushFirst(s: Sys, ret: int): Sys
    requires |s.clist| > 0 && s.alist != [] && s.alist[0] < |s.ent|
  {
    var id := s.alist[0];
    var e := s.ent[id];
    if e.t.None? then Drop(s, id, e)
    else Drop(s.(dev := s.dev - {e.t.value}), id, e.(t := None, invalid := ret < 0))
  }

  /** The freshly allocated cache: every buffer in the pool. */
  function Init(n: nat, htlen: nat, volsize: Chk, readahead: nat): Sys {
    Sys(seq(n, _ => Entry(0, 0, true, None, [], [])), seq(n, i => i), [], seq(htlen, _ => []), 0, 0, true, volsize,
        readahead, map[], multiset{}, map[], multiset{}, multiset{}, [])
  }

  /* ---- The invariant ---- */

  /** The chunk each pool object stands for in the cache; 0 for free and for blank ones. */
  ghost function Addrs(s: Sys): (a: seq<Chk>)
    ensures |a| == |s.ent|
    ensures forall i :: 0 <= i < |a| ==> a[i] == if i in s.free then 0 else s.ent[i].addr
  {
    seq(|s.ent|, i requires 0 <= i < |s.ent| => if i in s.free then 0 else s.ent[i].addr)
  }

  ghost predicate InBucket(a: seq<Chk>, id: BufId, h: nat, n: nat)
    requires n > 0
  {
    id < |a| && a[id] != 0 && Idx(a[id], n) == h
  }

  /** Every collision list is duplicate-free and holds exactly the entries of its own chunks, and
      no chunk is cached twice. */
  ghost predicate TableOk(clist: seq<seq<BufId>>, a: seq<Chk>) {
    && |clist| > 0
    && (forall h :: 0 <= h < |clist| ==> NoDup(clist[h]))
    && (forall h, id: BufId :: 0 <= h < |clist| ==> (id in clist[h] <==> InBucket(a, id, h, |clist|)))
    && (forall i, j :: 0 <= i < |a| && 0 <= j < |a| && a[i] != 0 && a[i] == a[j] ==> i == j)
  }

  /** One pool object: exactly one of free, available, referenced, blank; the waiter chain as long
      as the reference count while a read is in flight (loose: the newest reference has no token
      yet); loaded contents equal to the disk, and never a failed entry among the available. */
  ghost predicate EntryOk(e: Entry, held: nat, avail: bool, free: bool, loose: bool, disk: Disk) {
    && held == e.refcount
    && (avail <==> !free && e.addr != 0 && e.refcount == 0)
    && (free ==> e.refcount == 0 && e.t.None?)
    && (!free && e.addr == 0 ==> e.refcount > 0 && e.t.None? && e.invalid)
    && (e.t.None? ==> e.chain == [])
    && (e.t.Some? ==> e.refcount == |e.chain| + if loose then 1 else 0)
    && (!free && e.addr != 0 && e.t.None? ==> e.invalid || e.buf == disk(e.addr))
    && (avail && e.t.None? ==> !e.invalid)
  }

  /** The chains partition the waiting tokens. */
  ghost predicate WaitOk(ent: seq<Entry>, waits: map<Tok, BufId>) {
    && (forall id :: 0 <= id < |ent| ==> NoDup(ent[id].chain))
    && (forall id, w: Tok {:trigger w in ent[id].chain} :: 0 <= id < |ent| && w in ent[id].chain ==> w in waits && waits[w] == id)
    && (forall w: Tok :: w in waits ==> waits[w] < |ent| && w in ent[waits[w]].chain)
  }

  /** An entry has a token exactly while the device owns its buffer, and the chunk the device was
      asked for is the chunk the entry stands for. */
  ghost predicate DevOk(ent: seq<Entry>, dev: map<Tok, Request>) {
    && (forall t :: t in dev ==>
          && dev[t].buf < |ent| && ent[dev[t].buf].t == Some(t) && ent[dev[t].buf].addr == dev[t].addr)
    && (forall id :: 0 <= id < |ent| && ent[id].t.Some? ==> ent[id].t.value in dev && dev[ent[id].t.value].buf == id)
  }

  function NoteToks(n: seq<Note>): (r: seq<Tok>)
    ensures |r| == |n| && forall i :: 0 <= i < |r| ==> r[i] == n[i].tok
  {
    seq(|n|, i requires 0 <= i < |n| => n[i].tok)
  }

  /** Every token ever registered is still waiting, was aborted, or was notified: once. */
  ghost predicate LogOk(registered: multiset<Tok>, aborted: multiset<Tok>, notified: seq<Note>, waits: map<Tok, BufId>) {
    registered == aborted + multiset(NoteToks(notified)) + multiset(waits.Keys)
  }

  ghost function Referenced(ent: seq<Entry>): set<BufId> {
    set id | 0 <= id < |ent| && ent[id].refcount > 0
  }

  ghost predicate Entries(s: Sys, disk: Disk, x: Option<BufId>) {
    forall id :: 0 <= id < |s.ent| ==>
      EntryOk(s.ent[id], s.held[id], id in s.alist, id in s.free, x == Some(id), disk)
  }

  ghost predicate Facts(s: Sys, disk: Disk, x: Option<BufId>) {
    && Shape(s) && NoDup(s.free) && NoDup(s.alist)
    && TableOk(s.clist, Addrs(s))
    && Entries(s, disk, x)
    && WaitOk(s.ent, s.waits) && DevOk(s.ent, s.dev)
    && LogOk(s.registered, s.aborted, s.notified, s.waits)
    && s.nbEntries + |s.free| == |s.ent|
    && s.nbRef == |Referenced(s.ent)|
  }

  /** The invariant is sealed: a proof sees the facts only after asserting Open(0). */
  ghost predicate Open(k: nat) { true }

  ghost predicate InvX(s: Sys, disk: Disk, x: Option<BufId>) {
    Shape(s) && DevShape(s) && forall k: nat :: Open(k) ==> Facts(s, disk, x)
  }

  ghost predicate Inv(s: Sys, disk: Disk) { InvX(s, disk, None) }
}
