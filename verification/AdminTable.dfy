/** The file table between the admin tool and the runtime: entries added or removed by the tool, written
    back chunk by chunk, and fed by index when the volume is mounted. */
module AdminTable {
  import opened Lists
  import opened Arith
  import opened HashTable

  /** struct shfs_hentry: the digest and the rest. */
  datatype Hentry = Hentry(hash: Digest, meta: nat)

  /** The table on the device: chunks of pc entries. */
  type Chunks = seq<seq<Hentry>>

  /** SHFS_HTABLE_CHUNK_NO */
  function ChunkNo(i: nat, pc: nat): nat
    requires pc > 0
  {
    i / pc
  }

  /** SHFS_HTABLE_ENTRY_OFFSET, counted in entries. */
  function EntryNo(i: nat, pc: nat): (k: nat)
    requires pc > 0
    ensures k < pc
  {
    i % pc
  }

  /** Chunk and place of an index are those of no other index. */
  lemma PlaceUnique(i: nat, j: nat, pc: nat)
    requires pc > 0 && ChunkNo(i, pc) == ChunkNo(j, pc) && EntryNo(i, pc) == EntryNo(j, pc)
    ensures i == j
  {
    DivEquation(i, pc);
    DivEquation(j, pc);
  }

  ghost predicate Holds(t: Chunks, pc: nat, n: nat) {
    && pc > 0 && (forall c :: 0 <= c < |t| ==> |t[c]| == pc)
    && forall i: nat :: i < n ==> ChunkNo(i, pc) < |t|
  }

  /** Entry i. */
  function At(t: Chunks, pc: nat, i: nat): Hentry
    requires pc > 0 && ChunkNo(i, pc) < |t| && |t[ChunkNo(i, pc)]| == pc
  {
    t[ChunkNo(i, pc)][EntryNo(i, pc)]
  }

  function Put(t: Chunks, pc: nat, i: nat, e: Hentry): Chunks
    requires pc > 0 && ChunkNo(i, pc) < |t| && |t[ChunkNo(i, pc)]| == pc
  {
    t[ChunkNo(i, pc) := t[ChunkNo(i, pc)][EntryNo(i, pc) := e]]
  }

  /** The table as one sequence of entries. */
  function View(t: Chunks, pc: nat, n: nat): (v: seq<Hentry>)
    requires Holds(t, pc, n)
    ensures |v| == n && forall i: nat :: i < n ==> v[i] == At(t, pc, i)
  {
    seq(n, i requires 0 <= i < n => At(t, pc, i))
  }

  lemma PutView(t: Chunks, pc: nat, n: nat, i: nat, e: Hentry)
    requires Holds(t, pc, n) && i < n
    ensures Holds(Put(t, pc, i, e), pc, n) && View(Put(t, pc, i, e), pc, n) == View(t, pc, n)[i := e]
  {
    hide ChunkNo, EntryNo;
    var v, v' := View(t, pc, n), View(Put(t, pc, i, e), pc, n);
    forall j: nat | j < n ensures v'[j] == v[i := e][j] {
      if ChunkNo(i, pc) == ChunkNo(j, pc) && EntryNo(i, pc) == EntryNo(j, pc) { PlaceUnique(i, j, pc); }
    }
  }

  /** The slots of a table in memory are the digests of the entries. */
  predicate Mirrors(h: seq<Digest>, v: seq<Hentry>) {
    |v| == |h| && forall i :: 0 <= i < |h| ==> v[i].hash == h[i]
  }

  /** A new entry in an empty slot adds its file and takes none away. */
  lemma AddStores(h: seq<Digest>, v: seq<Hentry>, i: nat, d: Digest, m: nat, d2: Digest, m2: nat)
    requires Mirrors(h, v) && i < |h| && IsZero(h[i]) && !IsZero(d2)
    ensures Hentry(d2, m2) in v[i := Hentry(d, m)] <==> Hentry(d2, m2) in v || (d2, m2) == (d, m)
  {
    var v' := v[i := Hentry(d, m)];
    if Hentry(d2, m2) in v {
      var j :| 0 <= j < |v| && v[j] == Hentry(d2, m2);
      assert v'[j] == v[j];
    }
    assert v'[i] == Hentry(d, m);
  }

  /** Clearing an entry takes its file away and no other. */
  lemma RmStores(h: seq<Digest>, v: seq<Hentry>, i: nat, z: Digest, d2: Digest, m2: nat)
    requires Mirrors(h, v) && Unique(h) && i < |h| && !IsZero(h[i]) && IsZero(z) && !IsZero(d2)
    ensures Hentry(d2, m2) in v[i := v[i].(hash := z)] <==> Hentry(d2, m2) in v && d2 != h[i]
  {
    var v' := v[i := v[i].(hash := z)];
    if Hentry(d2, m2) in v && d2 != h[i] {
      var j :| 0 <= j < |v| && v[j] == Hentry(d2, m2);
      assert v'[j] == v[j];
    }
    if Hentry(d2, m2) in v' {
      var j :| 0 <= j < |v'| && v'[j] == Hentry(d2, m2);
      assert v[j] == v'[j] && h[j] == d2;
    }
  }

  /** What the device holds is a table: digests of the right length, each in its bucket, none twice. */
  ghost predicate GoodTable(v: seq<Hentry>, nb: nat, per: nat, hlen: nat) {
    && nb > 0 && per > 0 && |v| == nb * per && (forall i :: 0 <= i < |v| ==> |v[i].hash| == hlen)
    && Homed(Hashes(v), nb, per) && Unique(Hashes(v))
  }

  function Hashes(v: seq<Hentry>): (h: seq<Digest>)
    ensures Mirrors(h, v)
  {
    seq(|v|, i requires 0 <= i < |v| => v[i].hash)
  }

  lemma MirrorUnique(h: seq<Digest>, v: seq<Hentry>)
    requires Mirrors(h, v)
    ensures h == Hashes(v)
  {
  }

  /** The feeding loop of load_vol_htable, in the tool and at mount: every slot by its index. */
  method Load(ht: HTable, disk: Chunks, pc: nat)
    requires ht.Valid() && Holds(disk, pc, ht.nb * ht.per)
    requires forall i: nat :: i < ht.nb * ht.per ==> |At(disk, pc, i).hash| == ht.hlen
    modifies ht
    ensures ht.Valid() && ht.h == Hashes(View(disk, pc, ht.nb * ht.per))
  {
    hide ChunkNo, EntryNo, Linked;
    for i := 0 to ht.nb * ht.per
      invariant ht.Valid() && forall j: nat :: j < i ==> ht.h[j] == At(disk, pc, j).hash
    {
      ht.Feed(i, At(disk, pc, i).hash);
    }
    MirrorUnique(ht.h, View(disk, pc, ht.nb * ht.per));
  }

  /** There is a file with this digest. */
  ghost predicate Stores(v: seq<Hentry>, d: Digest) { exists m :: Hentry(d, m) in v }

  /** The admin tool's volume: table in memory, buffered table chunks with a modified flag, device. */
  class Admin {
    const ht: HTable
    const pc: nat
    var cache: Chunks
    var dirty: seq<bool>
    var disk: Chunks

    /** mount_shfs of the tool. */
    constructor (nb: nat, per: nat, hlen: nat, perChunk: nat, device: Chunks)
      requires Holds(device, perChunk, nb * per) && GoodTable(View(device, perChunk, nb * per), nb, per, hlen)
      ensures Valid() && fresh(ht) && Files() == View(device, perChunk, nb * per) && disk == device && pc == perChunk
      ensures ht.nb == nb && ht.per == per && ht.hlen == hlen
    {
      var t := new HTable(nb, per, hlen);
      ghost var v := View(device, perChunk, nb * per);
      assert forall i: nat :: i < nb * per ==> At(device, perChunk, i) == v[i];
      Load(t, device, perChunk);
      ht, pc, cache, disk := t, perChunk, device, device;
      dirty := seq(|device|, _ => false);
    }

    ghost function N(): nat
      reads ht
    {
      |ht.h|
    }

    /** Buffers mirror the table; a chunk that is not marked is as on the device. */
    ghost predicate Valid()
      reads this, ht
    {
      && ht.Valid() && Homed(ht.h, ht.nb, ht.per) && Unique(ht.h)
      && Holds(cache, pc, N()) && Mirrors(ht.h, View(cache, pc, N()))
      && |disk| == |cache| == |dirty| && forall c :: 0 <= c < |cache| && !dirty[c] ==> disk[c] == cache[c]
    }

    /** All files, as the tool sees them. */
    ghost function Files(): seq<Hentry>
      reads this, ht
      requires Valid()
    {
      View(cache, pc, N())
    }

    /** The entry of slot i is rewritten in its buffered chunk. */
    method Update(i: nat, e: Hentry)
      requires Holds(cache, pc, N()) && i < N() && |disk| == |cache| == |dirty|
      requires forall c :: 0 <= c < |cache| && !dirty[c] ==> disk[c] == cache[c]
      modifies this`cache, this`dirty
      ensures Holds(cache, pc, N()) && View(cache, pc, N()) == View(old(cache), pc, N())[i := e]
      ensures |disk| == |cache| == |dirty| && forall c :: 0 <= c < |cache| && !dirty[c] ==> disk[c] == cache[c]
    {
      hide ChunkNo, EntryNo;
      PutView(cache, pc, N(), i, e);
      cache := Put(cache, pc, i, e);
      dirty := dirty[ChunkNo(i, pc) := true];
    }

    /** The table steps of actn_addfile: they fail exactly for the zero digest, for a digest that is stored
        already, and when the digest's bucket is full. */
    method AddFile(d: Digest, m: nat) returns (ok: bool)
      requires Valid() && |d| == ht.hlen
      modifies this, ht
      ensures Valid() && disk == old(disk)
      ensures ok <==> !IsZero(d) && !old(Stores(Files(), d)) && !BucketFull(old(ht.h), d, ht.nb, ht.per)
      ensures ok ==> forall d2: Digest, m2: nat :: !IsZero(d2) ==>
        (Hentry(d2, m2) in Files() <==> Hentry(d2, m2) in old(Files()) || (d2, m2) == (d, m))
      ensures !ok ==> Files() == old(Files())
    {
      ghost var (h0, v0) := (ht.h, Files());
      var f := ht.Lookup(d);
      if f.Some? {
        assert v0[f.value] == Hentry(d, v0[f.value].meta);
        return false;
      }
      NotStored(h0, v0, d);
      var r := ht.Add(d);
      if r.None? { return false; }
      assert !BucketFull(h0, d, ht.nb, ht.per);
      AddKeeps(h0, r.value, d, ht.nb, ht.per);
      Update(r.value, Hentry(d, m));
      forall d2: Digest, m2: nat | !IsZero(d2)
        ensures Hentry(d2, m2) in View(cache, pc, N()) <==> Hentry(d2, m2) in v0 || (d2, m2) == (d, m)
      {
        AddStores(h0, v0, r.value, d, m, d2, m2);
      }
      return true;
    }

    /** The table steps of actn_rmfile. */
    method RmFile(d: Digest) returns (ok: bool)
      requires Valid() && |d| == ht.hlen
      modifies this, ht
      ensures Valid() && disk == old(disk)
      ensures ok <==> !IsZero(d) && old(Stores(Files(), d))
      ensures ok ==> forall d2: Digest, m2: nat :: !IsZero(d2) ==>
        (Hentry(d2, m2) in Files() <==> Hentry(d2, m2) in old(Files()) && d2 != d)
      ensures !ok ==> Files() == old(Files())
    {
      ghost var (h0, v0) := (ht.h, Files());
      var f := ht.Lookup(d);
      if f.None? {
        NotStored(h0, v0, d);
        return false;
      }
      var i := f.value;
      assert v0[i] == Hentry(d, v0[i].meta);
      ClearKeeps(h0, i, Zero(ht.hlen), ht.nb, ht.per);
      ht.Rm(i);
      var e := At(cache, pc, i);
      Update(i, e.(hash := Zero(ht.hlen)));
      forall d2: Digest, m2: nat | !IsZero(d2)
        ensures Hentry(d2, m2) in View(cache, pc, N()) <==> Hentry(d2, m2) in v0 && d2 != d
      {
        RmStores(h0, v0, i, Zero(ht.hlen), d2, m2);
      }
      return true;
    }

    /** The write-back of umount_shfs: afterwards the device holds the table. */
    method Umount()
      requires Valid()
      modifies this`disk
      ensures disk == cache
    {
      for i := 0 to |cache|
        invariant |disk| == |cache| && (forall c :: 0 <= c < i ==> disk[c] == cache[c])
        invariant forall c :: 0 <= c < |cache| && !dirty[c] ==> disk[c] == cache[c]
      {
        if dirty[i] { disk := disk[i := cache[i]]; }
      }
    }
  }

  lemma NotStored(h: seq<Digest>, v: seq<Hentry>, d: Digest)
    requires Mirrors(h, v) && (IsZero(d) || d !in h)
    ensures IsZero(d) || forall m :: Hentry(d, m) !in v
  {
  }

  lemma ClearKeeps(h: seq<Digest>, i: nat, z: Digest, nb: nat, per: nat)
    requires Homed(h, nb, per) && Unique(h) && i < |h| && IsZero(z)
    ensures Homed(h[i := z], nb, per) && Unique(h[i := z])
  {
  }

  /** The runtime's side of the round trip: a volume the tool has written back is mounted, and a digest is
      looked up.  It is found, with its metadata, exactly if the tool has the file. */
  method MountAndLookup(a: Admin, d: Digest) returns (r: Option<nat>)
    requires a.Valid() && a.disk == a.cache && !IsZero(d)
    ensures r.Some? ==> Hentry(d, r.value) in a.Files()
    ensures r.None? ==> forall m :: Hentry(d, m) !in a.Files()
  {
    hide ChunkNo, EntryNo, Linked;
    var ht := new HTable(a.ht.nb, a.ht.per, a.ht.hlen);
    ghost var v := a.Files();
    MirrorUnique(a.ht.h, v);
    assert forall i: nat :: i < |v| ==> At(a.disk, a.pc, i) == v[i];
    Load(ht, a.disk, a.pc);
    var f := ht.Lookup(d);
    if f.None? {
      NotStored(ht.h, v, d);
      return None;
    }
    var e := At(a.disk, a.pc, f.value);
    assert v[f.value] == e;
    return Some(e.meta);
  }
}
