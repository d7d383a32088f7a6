/** Open files and the online remount (shfs_fio.c, shfs.c): the steps of any number of clients that
    open, clone and close files, interleaved with the thread that re-reads the hash table. */
module Remount {
  import opened Arith

  type Meta = nat      // contents of a hash table entry
  type Handle = nat

  /** struct shfs_bentry; lock is the count of the semaphore. */
  datatype Bentry = Bentry(refcount: nat, lock: nat, update: bool, meta: Meta)

  /** Where reload_vol_htable is: between entries, waiting for the lock, or holding it. */
  datatype Remounter = Idle | Waiting(e: nat, new_: Meta) | Inside(e: nat, new_: Meta)

  /** handles: for each open file its entry and the metadata seen when it was opened. */
  datatype Vol = Vol(b: seq<Bentry>, nbOpen: nat, rem: Remounter, handles: map<Handle, (nat, Meta)>)

  datatype Step =
    | Open(e: nat, h: Handle)            // _shfs_fio_open_bentry
    | Clone(f: Handle, h: Handle)        // shfs_fio_openf
    | Close(f: Handle)                   // shfs_fio_close
    | Announce(e: nat, m: Meta)          // update = 1
    | Lock                               // down() returns
    | Copy                               // memcpy of the entry
    | Unlock                             // up(), update = 0

  predicate Enabled(v: Vol, s: Step) {
    match s
    case Open(e, h) => e < |v.b| && h !in v.handles
    case Clone(f, h) => f in v.handles && h !in v.handles && v.handles[f].0 < |v.b|
    case Close(f) => f in v.handles && v.handles[f].0 < |v.b| && v.b[v.handles[f].0].refcount > 0 && v.nbOpen > 0
    case Announce(e, _) => e < |v.b| && v.rem.Idle?
    case Lock => v.rem.Waiting? && v.rem.e < |v.b| && v.b[v.rem.e].lock > 0
    case Copy => v.rem.Inside? && v.rem.e < |v.b|
    case Unlock => v.rem.Inside? && v.rem.e < |v.b|
  }

  /** trydown */
  function TryDown(lock: nat): nat { if lock > 0 then lock - 1 else 0 }

  function Apply(v: Vol, s: Step): Vol
    requires Enabled(v, s)
  {
    match s
    case Open(e, h) =>
      var b := v.b[e];
      if b.update then v  // EBUSY
      else
        v.(b := v.b[e := b.(refcount := b.refcount + 1, lock := if b.refcount == 0 then TryDown(b.lock) else b.lock)],
           nbOpen := v.nbOpen + 1, handles := v.handles[h := (e, b.meta)])
    case Clone(f, h) =>
      var e := v.handles[f].0;
      v.(b := v.b[e := v.b[e].(refcount := v.b[e].refcount + 1)], nbOpen := v.nbOpen + 1, handles := v.handles[h := (e, v.b[e].meta)])
    case Close(f) =>
      var e := v.handles[f].0;
      var b := v.b[e];
      v.(b := v.b[e := b.(refcount := b.refcount - 1, lock := if b.refcount == 1 then b.lock + 1 else b.lock)],
         nbOpen := v.nbOpen - 1, handles := v.handles - {f})
    case Announce(e, m) => v.(b := v.b[e := v.b[e].(update := true)], rem := Waiting(e, m))
    case Lock => var e := v.rem.e; v.(b := v.b[e := v.b[e].(lock := v.b[e].lock - 1)], rem := Inside(e, v.rem.new_))
    case Copy => var e := v.rem.e; v.(b := v.b[e := v.b[e].(meta := v.rem.new_)])
    case Unlock => var e := v.rem.e; v.(b := v.b[e := v.b[e].(lock := v.b[e].lock + 1, update := false)], rem := Idle)
  }

  /* ---- The invariant ---- */

  ghost function HandlesOf(h: map<Handle, (nat, Meta)>, e: nat): set<Handle> {
    set f | f in h && h[f].0 == e
  }

  /** One entry: the lock is taken exactly while the file is open or the remounter is inside, never
      both; the update flag is up exactly while the remounter is at the entry. */
  predicate EntryOk(b: Bentry, e: nat, open: nat, rem: Remounter) {
    && b.refcount == open
    && (b.lock == 0 <==> b.refcount > 0 || (rem.Inside? && rem.e == e)) && b.lock <= 1
    && (rem.Inside? && rem.e == e ==> b.refcount == 0)
    && (b.update <==> !rem.Idle? && rem.e == e)
  }

  ghost predicate Inv(v: Vol) {
    && (forall e :: 0 <= e < |v.b| ==> EntryOk(v.b[e], e, |HandlesOf(v.handles, e)|, v.rem))
    && (forall f :: f in v.handles ==> v.handles[f].0 < |v.b| && v.b[v.handles[f].0].meta == v.handles[f].1)
    && (!v.rem.Idle? ==> v.rem.e < |v.b|)
    && v.nbOpen == |v.handles|
  }

  lemma HandlesAdd(m: map<Handle, (nat, Meta)>, h: Handle, e: nat, x: Meta, d: nat)
    requires h !in m
    ensures |HandlesOf(m[h := (e, x)], d)| == |HandlesOf(m, d)| + if d == e then 1 else 0
    ensures |m[h := (e, x)]| == |m| + 1
  {
    var m' := m[h := (e, x)];
    if d == e { assert HandlesOf(m', d) == HandlesOf(m, d) + {h}; } else { assert HandlesOf(m', d) == HandlesOf(m, d); }
    assert m'.Keys == m.Keys + {h};
    assert |m'| == |m'.Keys| && |m| == |m.Keys|;
  }

  lemma HandlesDrop(m: map<Handle, (nat, Meta)>, h: Handle, d: nat)
    requires h in m
    ensures |HandlesOf(m - {h}, d)| == |HandlesOf(m, d)| - if d == m[h].0 then 1 else 0
    ensures |m - {h}| == |m| - 1
  {
    var m' := m - {h};
    if d == m[h].0 { assert HandlesOf(m, d) == HandlesOf(m', d) + {h}; } else { assert HandlesOf(m', d) == HandlesOf(m, d); }
    assert m.Keys == m'.Keys + {h};
    assert |m'| == |m'.Keys| && |m| == |m.Keys|;
  }

  lemma AddKeeps(v: Vol, s: Step, e: nat, h: Handle)
    requires Inv(v) && Enabled(v, s) && e < |v.b| && h !in v.handles
    requires s == Open(e, h) || (s.Clone? && s.h == h && v.handles[s.f].0 == e)
    ensures Inv(Apply(v, s))
  {
    var v' := Apply(v, s);
    if s.Clone? { OpenEntry(v, s.f); }
    forall d | 0 <= d < |v.b| ensures EntryOk(v'.b[d], d, |HandlesOf(v'.handles, d)|, v'.rem) {
      HandlesAdd(v.handles, h, e, v.b[e].meta, d);
    }
    HandlesAdd(v.handles, h, e, v.b[e].meta, e);
  }

  /** An open file has a reference. */
  lemma OpenEntry(v: Vol, f: Handle)
    requires Inv(v) && f in v.handles
    ensures v.handles[f].0 < |v.b| && v.b[v.handles[f].0].refcount > 0 && v.nbOpen > 0
  {
    assert f in HandlesOf(v.handles, v.handles[f].0);
    assert f in v.handles.Keys;
  }

  lemma CloseKeeps(v: Vol, f: Handle)
    requires Inv(v) && Enabled(v, Close(f))
    ensures Inv(Apply(v, Close(f)))
  {
    var v' := Apply(v, Close(f));
    forall d | 0 <= d < |v.b| ensures EntryOk(v'.b[d], d, |HandlesOf(v'.handles, d)|, v'.rem) {
      HandlesDrop(v.handles, f, d);
    }
    HandlesDrop(v.handles, f, 0);
  }

  /** While the remounter holds the lock, no file on the entry is open. */
  lemma InsideAlone(v: Vol, f: Handle)
    requires Inv(v) && v.rem.Inside? && f in v.handles
    ensures v.handles[f].0 != v.rem.e
  {
    if v.handles[f].0 == v.rem.e { OpenEntry(v, f); }
  }

  /** Every step keeps the invariant. */
  lemma StepKeeps(v: Vol, s: Step)
    requires Inv(v) && Enabled(v, s)
    ensures Inv(Apply(v, s))
  {
    match s
    case Open(e, h) => if !v.b[e].update { AddKeeps(v, s, e, h); }
    case Clone(f, h) => AddKeeps(v, s, v.handles[f].0, h);
    case Close(f) => CloseKeeps(v, f);
    case Copy =>
      var v' := Apply(v, s);
      forall f | f in v.handles ensures v'.b[v.handles[f].0].meta == v.handles[f].1 { InsideAlone(v, f); }
    case _ =>
  }

  ghost predicate Run(v: Vol, ss: seq<Step>, v': Vol)
    decreases |ss|
  {
    if ss == [] then v' == v else Enabled(v, ss[0]) && Run(Apply(v, ss[0]), ss[1..], v')
  }

  /** The mounted volume: nothing open, every lock free. */
  function Mounted(metas: seq<Meta>): Vol {
    Vol(seq(|metas|, i requires 0 <= i < |metas| => Bentry(0, 1, false, metas[i])), 0, Idle, map[])
  }

  lemma MountedInv(metas: seq<Meta>)
    ensures Inv(Mounted(metas))
  {
    forall e: nat ensures HandlesOf(map[], e) == {} {}
  }

  lemma {:induction false} RunKeeps(v: Vol, ss: seq<Step>, v': Vol)
    requires Inv(v) && Run(v, ss, v')
    ensures Inv(v')
    decreases |ss|
  {
    if ss != [] {
      StepKeeps(v, ss[0]);
      RunKeeps(Apply(v, ss[0]), ss[1..], v');
    }
  }

  /** A step changes what a handle stands for only by closing it. */
  lemma HandleFixed(v: Vol, s: Step, f: Handle)
    requires Enabled(v, s) && f in v.handles && s != Close(f)
    ensures f in Apply(v, s).handles && Apply(v, s).handles[f] == v.handles[f]
  {
  }

  /** The metadata of a file does not change between a successful open and the matching close, whatever
      clients and the remounter do in between. */
  lemma {:induction false} MetaStable(v: Vol, ss: seq<Step>, v': Vol, f: Handle)
    requires Inv(v) && Run(v, ss, v') && f in v.handles && forall i :: 0 <= i < |ss| ==> ss[i] != Close(f)
    ensures f in v'.handles && v'.handles[f] == v.handles[f] && |v'.b| == |v.b|
    ensures v'.b[v.handles[f].0].meta == v.b[v.handles[f].0].meta && v'.b[v.handles[f].0].refcount > 0
    decreases |ss|
  {
    if ss == [] {
      OpenEntry(v, f);
    } else {
      HandleFixed(v, ss[0], f);
      StepKeeps(v, ss[0]);
      assert forall i :: 0 <= i < |ss[1..]| ==> ss[1..][i] == ss[i + 1];
      MetaStable(Apply(v, ss[0]), ss[1..], v', f);
    }
  }

  /** Whoever waits for the lock of an entry gets on exactly when its last file is closed, and an open
      succeeds exactly when the remounter is elsewhere. */
  lemma NobodyBlocked(v: Vol, e: nat, h: Handle)
    requires Inv(v) && e < |v.b| && h !in v.handles
    ensures v.rem.Waiting? && v.rem.e == e ==> (Enabled(v, Lock) <==> HandlesOf(v.handles, e) == {})
    ensures h in Apply(v, Open(e, h)).handles <==> v.rem.Idle? || v.rem.e != e
  {
  }

  function Sum(b: seq<Bentry>): nat { if b == [] then 0 else b[0].refcount + Sum(b[1..]) }

  lemma {:induction false} SumPoint(b: seq<Bentry>, e: nat, x: Bentry)
    requires e < |b|
    ensures Sum(b[e := x]) == Sum(b) - b[e].refcount + x.refcount
    decreases |b|
  {
    if e > 0 {
      assert b[e := x][1..] == b[1..][e - 1 := x];
      SumPoint(b[1..], e - 1, x);
    } else {
      assert b[e := x][1..] == b[1..];
    }
  }

  /** shfs_nb_open is the sum of the reference counts. */
  lemma NbOpenIsSum(v: Vol, s: Step)
    requires Inv(v) && Enabled(v, s) && v.nbOpen == Sum(v.b)
    ensures Apply(v, s).nbOpen == Sum(Apply(v, s).b)
  {
    match s
    case Open(e, h) => if !v.b[e].update { SumPoint(v.b, e, Apply(v, s).b[e]); }
    case Clone(f, h) => SumPoint(v.b, v.handles[f].0, Apply(v, s).b[v.handles[f].0]);
    case Close(f) => SumPoint(v.b, v.handles[f].0, Apply(v, s).b[v.handles[f].0]);
    case Announce(e, m) => SumPoint(v.b, e, Apply(v, s).b[e]);
    case _ => SumPoint(v.b, v.rem.e, Apply(v, s).b[v.rem.e]);
  }

  lemma {:induction false} NbOpenRun(v: Vol, ss: seq<Step>, v': Vol)
    requires Inv(v) && v.nbOpen == Sum(v.b) && Run(v, ss, v')
    ensures v'.nbOpen == Sum(v'.b)
    decreases |ss|
  {
    if ss != [] {
      StepKeeps(v, ss[0]);
      NbOpenIsSum(v, ss[0]);
      NbOpenRun(Apply(v, ss[0]), ss[1..], v');
    }
  }

  lemma {:induction false} NoneOpen(b: seq<Bentry>)
    requires forall i :: 0 <= i < |b| ==> b[i].refcount == 0
    ensures Sum(b) == 0
  {
    if b != [] { NoneOpen(b[1..]); }
  }

  /** In every state of every run of a mounted volume shfs_nb_open is the sum of the reference counts. */
  lemma NbOpenAlways(metas: seq<Meta>, ss: seq<Step>, v: Vol)
    requires Run(Mounted(metas), ss, v)
    ensures v.nbOpen == Sum(v.b)
  {
    MountedInv(metas);
    NoneOpen(Mounted(metas).b);
    NbOpenRun(Mounted(metas), ss, v);
  }

  /* ---- What a remount changes ---- */

  function Metas(v: Vol): (m: seq<Meta>)
    ensures |m| == |v.b| && forall e :: 0 <= e < |m| ==> m[e] == v.b[e].meta
  {
    seq(|v.b|, e requires 0 <= e < |v.b| => v.b[e].meta)
  }

  /** The steps of the remounting thread among those of a run. */
  function Remounting(ss: seq<Step>): seq<Step> {
    if ss == [] then []
    else if ss[0].Open? || ss[0].Clone? || ss[0].Close? then Remounting(ss[1..])
    else [ss[0]] + Remounting(ss[1..])
  }

  /** How the thread updates one entry. */
  function Round(e: nat, m: Meta): seq<Step> { [Announce(e, m), Lock, Copy, Unlock] }

  /** How it updates the entries of the table from number e on, in order. */
  function Rounds(news: seq<Meta>, e: nat): seq<Step>
    requires e <= |news|
    decreases |news| - e
  {
    if e == |news| then [] else Round(e, news[e]) + Rounds(news, e + 1)
  }

  /** A step of a client changes no metadata and nothing of the remounter. */
  lemma ClientMetas(v: Vol, s: Step)
    requires Inv(v) && Enabled(v, s) && (s.Open? || s.Clone? || s.Close?)
    ensures Metas(Apply(v, s)) == Metas(v) && Apply(v, s).rem == v.rem
  {
  }

  /** Of the remounter's steps only the copy changes metadata, and only that of its entry. */
  lemma RemounterMetas(v: Vol, s: Step)
    requires Enabled(v, s)
    ensures s.Announce? ==> v.rem.Idle? && s.e < |v.b| && Metas(Apply(v, s)) == Metas(v) && Apply(v, s).rem == Waiting(s.e, s.m)
    ensures s.Lock? && v.rem.Waiting? ==> Metas(Apply(v, s)) == Metas(v) && Apply(v, s).rem == Inside(v.rem.e, v.rem.new_)
    ensures s.Copy? && v.rem.Inside? ==> v.rem.e < |v.b| && Metas(Apply(v, s)) == Metas(v)[v.rem.e := v.rem.new_] && Apply(v, s).rem == v.rem
    ensures s.Unlock? ==> Metas(Apply(v, s)) == Metas(v) && Apply(v, s).rem == Idle
  {
  }

  /** A run up to its next step of the remounter, and that step. */
  lemma {:induction false} NextRemounting(v: Vol, ss: seq<Step>, v': Vol) returns (w: Vol, rest: seq<Step>)
    requires Inv(v) && Run(v, ss, v') && Remounting(ss) != []
    ensures Inv(w) && Metas(w) == Metas(v) && w.rem == v.rem
    ensures Enabled(w, Remounting(ss)[0]) && Inv(Apply(w, Remounting(ss)[0]))
    ensures Run(Apply(w, Remounting(ss)[0]), rest, v') && Remounting(rest) == Remounting(ss)[1..]
    decreases |ss|
  {
    StepKeeps(v, ss[0]);
    if ss[0].Open? || ss[0].Clone? || ss[0].Close? {
      ClientMetas(v, ss[0]);
      w, rest := NextRemounting(Apply(v, ss[0]), ss[1..], v');
    } else {
      w, rest := v, ss[1..];
    }
  }

  lemma {:induction false} ClientsOnly(v: Vol, ss: seq<Step>, v': Vol)
    requires Inv(v) && Run(v, ss, v') && Remounting(ss) == []
    ensures Metas(v') == Metas(v) && v'.rem == v.rem
    decreases |ss|
  {
    if ss != [] {
      StepKeeps(v, ss[0]);
      ClientMetas(v, ss[0]);
      ClientsOnly(Apply(v, ss[0]), ss[1..], v');
    }
  }

  /** A round of the remounter and what the clients do in the meantime; rest is the run after it. */
  lemma RoundUpdates(v: Vol, e: nat, m: Meta, more: seq<Step>, ss: seq<Step>, v': Vol) returns (w: Vol, rest: seq<Step>)
    requires Inv(v) && Run(v, ss, v') && Remounting(ss) == Round(e, m) + more
    ensures Inv(w) && Run(w, rest, v') && Remounting(rest) == more
    ensures v.rem.Idle? && w.rem.Idle? && e < |v.b| && Metas(w) == Metas(v)[e := m]
  {
    hide Inv, Run, Remounting, Apply, Enabled;
    var w0, r0 := NextRemounting(v, ss, v');
    RemounterMetas(w0, Announce(e, m));
    assert Remounting(r0) == [Lock, Copy, Unlock] + more;
    var w1, r1 := NextRemounting(Apply(w0, Announce(e, m)), r0, v');
    RemounterMetas(w1, Lock);
    assert Remounting(r1) == [Copy, Unlock] + more;
    var w2, r2 := NextRemounting(Apply(w1, Lock), r1, v');
    RemounterMetas(w2, Copy);
    assert Remounting(r2) == [Unlock] + more;
    var w3, r3 := NextRemounting(Apply(w2, Copy), r2, v');
    RemounterMetas(w3, Unlock);
    assert Remounting(r3) == more;
    w, rest := Apply(w3, Unlock), r3;
  }

  /** An update takes effect: in every run in which the remounter goes through one entry, whatever the clients
      do meanwhile, the entry holds the new metadata at the end, all others are as before, no file is left
      that was opened with other metadata, and the next open sees the new one. */
  lemma EntryUpdated(v: Vol, e: nat, m: Meta, ss: seq<Step>, v': Vol, h: Handle)
    requires Inv(v) && Run(v, ss, v') && Remounting(ss) == Round(e, m) && h !in v'.handles
    ensures e < |v.b| && Metas(v') == Metas(v)[e := m] && v'.rem.Idle?
    ensures forall f :: f in v'.handles && v'.handles[f].0 == e ==> v'.handles[f].1 == m
    ensures Enabled(v', Open(e, h)) && h in Apply(v', Open(e, h)).handles && Apply(v', Open(e, h)).handles[h] == (e, m)
  {
    assert Round(e, m) + [] == Round(e, m);
    var w, rest := RoundUpdates(v, e, m, [], ss, v');
    ClientsOnly(w, rest, v');
    RunKeeps(v, ss, v');
    assert Metas(v')[e] == m;
    NobodyBlocked(v', e, h);
  }

  /** A whole remount: in every run in which the remounter goes through the table, the table is the new one at
      the end, and every open file was opened with what its entry holds now. */
  lemma TableUpdated(v: Vol, news: seq<Meta>, ss: seq<Step>, v': Vol)
    requires Inv(v) && Run(v, ss, v') && |news| == |v.b| && Remounting(ss) == Rounds(news, 0)
    ensures Metas(v') == news
    ensures forall f :: f in v'.handles ==> v'.handles[f].0 < |news| && v'.handles[f].1 == news[v'.handles[f].0]
  {
    RestUpdated(v, news, 0, ss, v');
    RunKeeps(v, ss, v');
  }

  lemma {:induction false} RestUpdated(v: Vol, news: seq<Meta>, e: nat, ss: seq<Step>, v': Vol)
    requires Inv(v) && Run(v, ss, v') && e <= |news| == |v.b| && Remounting(ss) == Rounds(news, e)
    requires forall i :: 0 <= i < e ==> v.b[i].meta == news[i]
    ensures Metas(v') == news
    decreases |news| - e
  {
    hide Inv, Run, Remounting;
    if e == |news| {
      ClientsOnly(v, ss, v');
      assert Metas(v) == news;
    } else {
      var w, rest := RoundUpdates(v, e, news[e], Rounds(news, e + 1), ss, v');
      assert |Metas(w)| == |Metas(v)|;
      forall i | 0 <= i < e + 1 ensures w.b[i].meta == news[i] { assert Metas(w)[i] == news[i]; }
      RestUpdated(w, news, e + 1, rest, v');
    }
  }

  /** The index of slot e of table chunk c. */
  function SlotIndex(c: nat, e: nat, perChunk: nat): nat { c * perChunk + e }

  /** reload_vol_htable visits every slot of every table chunk and feeds it by its index; the feed
      asserts that the index lies in the table.  All indices do exactly when the entries fill their
      last chunk. */
  lemma ReloadInside(nb: nat, perChunk: nat)
    requires nb > 0 && perChunk > 0
    ensures var chunks := (nb + perChunk - 1) / perChunk;
      (forall c: nat, e: nat :: c < chunks && e < perChunk ==> SlotIndex(c, e, perChunk) < nb) <==> nb % perChunk == 0
  {
    var chunks := (nb + perChunk - 1) / perChunk;
    var q, r := nb / perChunk, nb % perChunk;
    DivEquation(nb, perChunk);
    if r == 0 {
      DivUnique(nb + perChunk - 1, perChunk, q, perChunk - 1);
      forall c: nat, e: nat | c < chunks && e < perChunk ensures SlotIndex(c, e, perChunk) < nb {
        MulMonotone(c + 1, chunks, perChunk);
        assert (c + 1) * perChunk == c * perChunk + perChunk;
      }
    } else {
      assert (q + 1) * perChunk == q * perChunk + perChunk;
      DivUnique(nb + perChunk - 1, perChunk, q + 1, r - 1);
      assert !(SlotIndex(q, perChunk - 1, perChunk) < nb);
    }
  }

  /** A table of 100 entries with 16 to a chunk: the remount feeds index 111. */
  lemma ReloadOverruns()
    ensures (100 + 16 - 1) / 16 == 7 && !(SlotIndex(6, 15, 16) < 100)
    ensures !(forall c: nat, e: nat :: c < 7 && e < 16 ==> SlotIndex(c, e, 16) < 100)
  {
    assert SlotIndex(6, 15, 16) == 111;
  }

  /** The file operations as they update the volume in place. */
  class Files {
    var b: seq<Bentry>
    var nbOpen: nat
    ghost var rem: Remounter
    ghost var handles: map<Handle, (nat, Meta)>

    ghost function V(): Vol
      reads this
    {
      Vol(b, nbOpen, rem, handles)
    }

    /** _shfs_fio_open_bentry */
    method OpenBentry(e: nat, ghost h: Handle) returns (busy: bool)
      requires Inv(V()) && Enabled(V(), Open(e, h))
      modifies this
      ensures Inv(V()) && V() == Apply(old(V()), Open(e, h))
      ensures busy <==> !rem.Idle? && rem.e == e
      ensures !busy ==> h in handles && handles[h] == (e, b[e].meta) && b[e].lock == 0
    {
      StepKeeps(V(), Open(e, h));
      busy := b[e].update;
      if busy { return; }
      nbOpen := nbOpen + 1;
      if b[e].refcount == 0 { b := b[e := b[e].(lock := TryDown(b[e].lock))]; }
      b := b[e := b[e].(refcount := b[e].refcount + 1)];
      handles := handles[h := (e, b[e].meta)];
      assert b == old(b)[e := b[e]];
    }

    /** shfs_fio_openf */
    method OpenF(e: nat, ghost f: Handle, ghost h: Handle)
      requires Inv(V()) && Enabled(V(), Clone(f, h)) && handles[f].0 == e
      modifies this
      ensures Inv(V()) && V() == Apply(old(V()), Clone(f, h))
    {
      hide Inv;
      StepKeeps(V(), Clone(f, h));
      b := b[e := b[e].(refcount := b[e].refcount + 1)];
      nbOpen := nbOpen + 1;
      handles := handles[h := (e, b[e].meta)];
    }

    /** shfs_fio_close */
    method CloseF(e: nat, ghost f: Handle)
      requires Inv(V()) && f in handles && handles[f].0 == e
      modifies this
      ensures Enabled(old(V()), Close(f)) && Inv(V()) && V() == Apply(old(V()), Close(f))
    {
      hide Inv;
      OpenEntry(V(), f);
      StepKeeps(V(), Close(f));
      b := b[e := b[e].(refcount := b[e].refcount - 1)];
      if b[e].refcount == 0 { b := b[e := b[e].(lock := b[e].lock + 1)]; }
      nbOpen := nbOpen - 1;
      handles := handles - {f};
      assert b == old(b)[e := b[e]];
    }
  }
}
