/** Chunk I/O on byte-addressed member devices: the tools write stripe by stripe at byte offsets
    (tools_common.c), the runtime reads with one request per stripe in sectors and a token that counts the
    completions (shfs.c).  A buffer is the sequence of its stripes. */
module StripeIo {
  import opened Lists
  import opened Arith
  import opened Stripe

  type Block = seq<Byte>

  /** The k-th stripe from stripe first on. */
  function Nth(first: nat, k: nat): nat { first + k }

  /** Byte x of member m belongs to the stripe. */
  predicate Hits(l: Layout, strp: nat, m: nat, x: nat)
    requires l.Ok()
  {
    var s := StripeSpot(l, strp);
    m == s.member && s.at <= x < s.at + l.stripe
  }

  /** Stripes do not overlap. */
  lemma StripesApart(l: Layout, a: nat, b: nat, m: nat, x: nat)
    requires l.Ok() && Hits(l, a, m, x) && Hits(l, b, m, x)
    ensures a == b
  {
    DivUnique(x, l.stripe, a / l.n, x - StripeSpot(l, a).at);
    DivUnique(x, l.stripe, b / l.n, x - StripeSpot(l, b).at);
    DivEquation(a, l.n);
    DivEquation(b, l.n);
  }

  predicate Covered(l: Layout, first: nat, n: nat, m: nat, x: nat)
    requires l.Ok()
  {
    exists k: nat :: k < n && Hits(l, Nth(first, k), m, x)
  }

  /** Number of stripes of len chunks. */
  function Stripes(l: Layout, len: nat): nat { if l.mode.Combined? then len * l.n else len }

  type Devices = seq<seq<Byte>>

  /** The stripe lies inside its member. */
  predicate Inside(l: Layout, dev: Devices, strp: nat)
    requires l.Ok()
  {
    var s := StripeSpot(l, strp);
    |dev| == l.n && s.at + l.stripe <= |dev[s.member]|
  }

  /** The stripe's bytes. */
  function Bytes(l: Layout, dev: Devices, strp: nat): (b: Block)
    requires l.Ok() && Inside(l, dev, strp)
    ensures |b| == l.stripe
  {
    var s := StripeSpot(l, strp);
    dev[s.member][s.at..s.at + l.stripe]
  }

  /** write() of a stripe at its byte offset. */
  function Put(l: Layout, dev: Devices, strp: nat, b: Block): (r: Devices)
    requires l.Ok() && Inside(l, dev, strp) && |b| == l.stripe
    ensures |r| == |dev| && forall m :: 0 <= m < |dev| ==> |r[m]| == |dev[m]|
  {
    var s := StripeSpot(l, strp);
    var d := dev[s.member];
    dev[s.member := d[..s.at] + b + d[s.at + l.stripe..]]
  }

  lemma PutBytes(l: Layout, dev: Devices, strp: nat, b: Block)
    requires l.Ok() && Inside(l, dev, strp) && |b| == l.stripe
    ensures Bytes(l, Put(l, dev, strp, b), strp) == b
    ensures forall m: nat, x: nat :: m < l.n && x < |dev[m]| && !Hits(l, strp, m, x) ==> Put(l, dev, strp, b)[m][x] == dev[m][x]
  {
  }

  /** Writing a stripe leaves the others as they are. */
  lemma PutOther(l: Layout, dev: Devices, strp: nat, b: Block, other: nat)
    requires l.Ok() && Inside(l, dev, strp) && |b| == l.stripe && Inside(l, dev, other) && other != strp
    ensures Bytes(l, Put(l, dev, strp, b), other) == Bytes(l, dev, other)
  {
    PutBytes(l, dev, strp, b);
    hide Put, StripeSpot;
    var (s, r) := (StripeSpot(l, other), Put(l, dev, strp, b));
    forall y: nat | s.at <= y < s.at + l.stripe ensures r[s.member][y] == dev[s.member][y] {
      assert Hits(l, other, s.member, y);
      if Hits(l, strp, s.member, y) { StripesApart(l, strp, other, s.member, y); }
    }
    assert r[s.member][s.at..s.at + l.stripe] == dev[s.member][s.at..s.at + l.stripe];
  }

  datatype Token = Token(infly: nat, ret: int, called: nat)

  /** _shfs_aio_cb; armed is whether the token still has its callback. */
  function Done(t: Token, ret: int, armed: bool): Token
    requires t.infly > 0
  {
    Token(t.infly - 1, if ret < 0 then ret else t.ret, if t.infly == 1 && armed then t.called + 1 else t.called)
  }

  /** What a request of the runtime reads: sfactor sectors from the sector of the stripe's row on. */
  function Sectors(l: Layout, dev: Devices, ssize: seq<nat>, strp: nat): Block
    requires l.Ok() && Inside(l, dev, strp) && |ssize| == l.n && ssize[strp % l.n] > 0
  {
    var z := ssize[strp % l.n];
    SectorsInside(l, strp, z);
    dev[strp % l.n][RuntimeByte(l, strp, z)..RuntimeByte(l, strp, z) + (l.stripe / z) * z]
  }

  lemma SectorsInside(l: Layout, strp: nat, z: nat)
    requires l.Ok() && z > 0
    ensures 0 <= (l.stripe / z) * z <= l.stripe && RuntimeByte(l, strp, z) <= StripeSpot(l, strp).at
  {
    DivEquation(l.stripe, z);
    MulNat(l.stripe / z, z);
    var row := strp / l.n;
    assert (row * (l.stripe / z)) * z == ((l.stripe / z) * z) * row;
    MulMonotone((l.stripe / z) * z, l.stripe, row);
  }

  /** With a sector size that divides the stripe size these are the stripe's bytes. */
  lemma SectorsAreBytes(l: Layout, dev: Devices, ssize: seq<nat>, strp: nat)
    requires l.Ok() && Inside(l, dev, strp) && |ssize| == l.n && ssize[strp % l.n] > 0 && l.stripe % ssize[strp % l.n] == 0
    ensures Sectors(l, dev, ssize, strp) == Bytes(l, dev, strp)
  {
    SectorsAgree(l, ssize[strp % l.n]);
    DivEquation(l.stripe, ssize[strp % l.n]);
  }

  class Members {
    const l: Layout
    const ssize: seq<nat>   // sector size of each member
    var dev: Devices

    constructor (l0: Layout, sizes: seq<nat>, devices: Devices)
      ensures l == l0 && ssize == sizes && dev == devices
    {
      l, ssize, dev := l0, sizes, devices;
    }

    predicate Ok()
      reads this
    {
      l.Ok() && |dev| == |ssize| == l.n && forall m :: 0 <= m < l.n ==> ssize[m] > 0
    }

    /** The stripes of the chunks lie inside the members. */
    predicate Holds(start: nat, n: nat)
      requires Ok()
      reads this
    {
      forall k: nat :: k < n ==> Inside(l, dev, Nth(l.FirstStripe(start), k))
    }

    /** sync_io_chunk, writing: each stripe of the chunks gets its part of the buffer, and no other byte
        on the devices changes. */
    method SyncWrite(start: nat, len: nat, buf: seq<Block>)
      requires Ok() && start != 0 && |buf| == Stripes(l, len) && Holds(start, |buf|)
      requires forall k :: 0 <= k < |buf| ==> |buf[k]| == l.stripe
      modifies this
      ensures Ok() && Holds(start, |buf|) && forall m :: 0 <= m < l.n ==> |dev[m]| == |old(dev)[m]|
      ensures forall k: nat :: k < |buf| ==> Bytes(l, dev, Nth(l.FirstStripe(start), k)) == buf[k]
      ensures forall m: nat, x: nat :: m < l.n && x < |dev[m]| && !Covered(l, l.FirstStripe(start), |buf|, m, x) ==> dev[m][x] == old(dev)[m][x]
    {
      var first := l.FirstStripe(start);
      for k := 0 to |buf|
        invariant Ok() && Holds(start, |buf|) && forall m :: 0 <= m < l.n ==> |dev[m]| == |old(dev)[m]|
        invariant forall j: nat :: j < k ==> Bytes(l, dev, Nth(first, j)) == buf[j]
        invariant forall m: nat, x: nat :: m < l.n && x < |dev[m]| && !Covered(l, first, k, m, x) ==> dev[m][x] == old(dev)[m][x]
      {
        hide Put, Bytes, Hits, StripeSpot;
        WriteOne(k, first, buf);
      }
    }

    method WriteOne(k: nat, first: nat, buf: seq<Block>)
      requires Ok() && k < |buf| && |buf[k]| == l.stripe && forall j: nat :: j < |buf| ==> Inside(l, dev, Nth(first, j))
      requires forall j: nat :: j < k ==> Bytes(l, dev, Nth(first, j)) == buf[j]
      modifies this
      ensures Ok() && (forall m :: 0 <= m < l.n ==> |dev[m]| == |old(dev)[m]|) && forall j: nat :: j < |buf| ==> Inside(l, dev, Nth(first, j))
      ensures forall j: nat :: j < k + 1 ==> Bytes(l, dev, Nth(first, j)) == buf[j]
      ensures forall m: nat, x: nat :: m < l.n && x < |dev[m]| && !Hits(l, Nth(first, k), m, x) ==> dev[m][x] == old(dev)[m][x]
    {
      hide Put, Bytes;
      PutBytes(l, dev, Nth(first, k), buf[k]);
      forall j: nat | j < k ensures Bytes(l, Put(l, dev, Nth(first, k), buf[k]), Nth(first, j)) == buf[j] {
        PutOther(l, dev, Nth(first, k), buf[k], Nth(first, j));
      }
      dev := Put(l, dev, Nth(first, k), buf[k]);
    }

    /** shfs_aio_chunk, reading: one request per stripe, completed in any order; refused says which of them
        cannot be set up, broken which end with an error.  Without a refused one there is a token, whose
        callback runs exactly once, after the last completion, with an error exactly when one is broken; every
        slot of another one then holds what its request reads.  When a request is refused, those before it
        are waited for, and there is no token and no callback. */
    method AioRead(start: nat, len: nat, buf: array<Block>, refused: nat -> bool, broken: nat -> bool) returns (t: Option<Token>)
      requires Ok() && start != 0 && len > 0 && buf.Length == Stripes(l, len) && Holds(start, buf.Length)
      modifies buf
      ensures t.None? <==> exists k: nat :: k < buf.Length && refused(k)
      ensures t.Some? ==> t.value.infly == 0 && t.value.called == 1 && (t.value.ret < 0 <==> exists k: nat :: k < buf.Length && broken(k))
      ensures t.Some? ==> forall k: nat :: k < buf.Length && !broken(k) ==> buf[k] == Sectors(l, dev, ssize, Nth(l.FirstStripe(start), k))
    {
      hide Sectors, Stripes;
      StripesPositive(l, len);
      var k := 0;
      var tok := Token(0, 0, 0);
      while k < buf.Length
        invariant k <= buf.Length && tok == Token(k, 0, 0) && forall j: nat :: j < k ==> !refused(j)
      {
        if refused(k) {
          tok := Complete(start, k, tok, false, buf, broken);
          return None;
        }
        tok, k := tok.(infly := tok.infly + 1), k + 1;
      }
      tok := Complete(start, k, tok, true, buf, broken);
      t := Some(tok);
    }

    /** The first n requests complete, in any order. */
    method Complete(start: nat, n: nat, t0: Token, armed: bool, buf: array<Block>, broken: nat -> bool) returns (t: Token)
      requires Ok() && n <= buf.Length && Holds(start, buf.Length) && t0 == Token(n, 0, 0)
      modifies buf
      ensures t.infly == 0 && (t.ret < 0 <==> exists k: nat :: k < n && broken(k)) && t.called == if armed && n > 0 then 1 else 0
      ensures forall k: nat :: k < n && !broken(k) ==> buf[k] == Sectors(l, dev, ssize, Nth(l.FirstStripe(start), k))
    {
      hide Sectors;
      var pending: set<nat> := Below(n);
      t := t0;
      while pending != {}
        invariant t.infly == |pending| && t.called == (if pending == {} && armed && n > 0 then 1 else 0)
        invariant t.ret < 0 <==> exists k: nat :: k < n && k !in pending && broken(k)
        invariant forall j :: j in pending ==> 0 <= j < n
        invariant forall k: nat :: k < n && k !in pending && !broken(k) ==> buf[k] == Sectors(l, dev, ssize, Nth(l.FirstStripe(start), k))
        decreases |pending|
      {
        var j :| j in pending;
        pending := pending - {j};
        if broken(j) {
          t := Done(t, -5, armed);
        } else {
          buf[j] := Sectors(l, dev, ssize, Nth(l.FirstStripe(start), j));
          t := Done(t, 0, armed);
        }
      }
    }

    /** What the tools wrote is what the runtime reads, when the sector size of every member divides the
        stripe size. */
    method WriteThenRead(start: nat, len: nat, data: seq<Block>, buf: array<Block>, refused: nat -> bool, broken: nat -> bool) returns (t: Option<Token>)
      requires Ok() && start != 0 && len > 0 && |data| == Stripes(l, len) == buf.Length && Holds(start, |data|)
      requires forall k :: 0 <= k < |data| ==> |data[k]| == l.stripe
      requires forall m :: 0 <= m < l.n ==> l.stripe % ssize[m] == 0
      modifies this, buf
      ensures t.None? <==> exists k: nat :: k < |data| && refused(k)
      ensures t.Some? ==> forall k: nat :: k < |data| && !broken(k) ==> buf[k] == data[k]
    {
      hide Sectors, Bytes, Stripes, Covered;
      SyncWrite(start, len, data);
      t := AioRead(start, len, buf, refused, broken);
      forall k: nat | k < |data| ensures Sectors(l, dev, ssize, Nth(l.FirstStripe(start), k)) == data[k] {
        SectorsAreBytes(l, dev, ssize, Nth(l.FirstStripe(start), k));
      }
    }
  }

  function Below(n: nat): (r: set<nat>)
    ensures |r| == n && forall j: nat :: j in r <==> j < n
  {
    if n == 0 then {} else Below(n - 1) + {n - 1}
  }

  lemma StripesPositive(l: Layout, len: nat)
    requires l.Ok() && len > 0
    ensures Stripes(l, len) > 0
  {
    if l.mode.Combined? { MulMonotone(1, len, l.n); }
  }

  /** A chunk that fits into the smallest member lies inside all of them. */
  lemma FitsInside(l: Layout, dev: Devices, c: nat, k: nat, smallest: nat)
    requires l.Ok() && |dev| == l.n && (forall m :: 0 <= m < l.n ==> |dev[m]| >= smallest)
    requires Fits(l, c, smallest) && k < Stripes(l, 1)
    ensures Inside(l, dev, Nth(l.FirstStripe(c), k))
  {
    var last := l.FirstStripe(c) + (if l.mode.Combined? then l.n - 1 else 0);
    var row := Nth(l.FirstStripe(c), k) / l.n;
    DivMonotone(Nth(l.FirstStripe(c), k), last, l.n);
    MulMonotone(row + 1, last / l.n + 1, l.stripe);
    assert (row + 1) * l.stripe == row * l.stripe + l.stripe;
  }

  /** A sector size that does not divide the stripe size makes the runtime read other bytes: with stripes of
      4096 bytes and sectors of 1000, chunk 1 of a single member is read from byte 4000 on. */
  lemma OddSectors()
    ensures var l := Layout(Independent, 1, 4096); StripeSpot(l, 1).at == 4096 && RuntimeByte(l, 1, 1000) == 4000
  {
  }

  /** The stripes of a chunk are exactly its bytes: byte i of chunk c is byte i % stripe of its stripe. */
  lemma ByteOfStripe(l: Layout, dev: Devices, c: nat, i: nat)
    requires l.Ok() && i < l.ChunkSize() && Inside(l, dev, l.FirstStripe(c) + i / l.stripe)
    ensures var s := Locate(l, c, i);
      && s.member < |dev| && s.at < |dev[s.member]|
      && dev[s.member][s.at] == Bytes(l, dev, l.FirstStripe(c) + i / l.stripe)[i % l.stripe]
  {
    DivEquation(i, l.stripe);
  }

  /** A byte of the chunks written is hit by them, a byte of another chunk is not: writing leaves every other
      chunk, and the labels in row 0, as they were. */
  lemma OthersApart(l: Layout, start: nat, len: nat, c: nat, i: nat)
    requires l.Ok() && start >= 1 && c >= 1 && i < l.ChunkSize()
    ensures var s := Locate(l, c, i); Covered(l, l.FirstStripe(start), Stripes(l, len), s.member, s.at) <==> start <= c < start + len
  {
    hide Locate, StripeSpot, Hits, Stripes;
    var s := Locate(l, c, i);
    var (first, n) := (l.FirstStripe(start), Stripes(l, len));
    var strp := l.FirstStripe(c) + i / l.stripe;
    OwnHits(l, c, i);
    StripeRange(l, start, len, c, i);
    if start <= c < start + len { assert Hits(l, Nth(first, strp - first), s.member, s.at); }
    if Covered(l, first, n, s.member, s.at) {
      var k: nat :| k < n && Hits(l, Nth(first, k), s.member, s.at);
      StripesApart(l, Nth(first, k), strp, s.member, s.at);
    }
  }

  lemma OwnHits(l: Layout, c: nat, i: nat)
    requires l.Ok() && i < l.ChunkSize()
    ensures Hits(l, l.FirstStripe(c) + i / l.stripe, Locate(l, c, i).member, Locate(l, c, i).at)
  {
    DivEquation(i, l.stripe);
  }

  lemma StripeRange(l: Layout, start: nat, len: nat, c: nat, i: nat)
    requires l.Ok() && start >= 1 && c >= 1 && i < l.ChunkSize()
    ensures var strp := l.FirstStripe(c) + i / l.stripe;
      l.FirstStripe(start) <= strp < l.FirstStripe(start) + Stripes(l, len) <==> start <= c < start + len
  {
    if l.mode.Combined? {
      CombinedOwner(l, c, i);
      var j := i / l.stripe;
      DivEquation(i, l.stripe);
      if j >= l.n { MulMonotone(l.n, j, l.stripe); }
      if c < start { MulMonotone(c + 1, start, l.n); assert (c + 1) * l.n == c * l.n + l.n; }
      if c >= start { MulMonotone(start, c, l.n); }
      assert (start + len) * l.n == start * l.n + len * l.n;
      if c >= start + len { MulMonotone(start + len, c, l.n); }
      if c < start + len { MulMonotone(c + 1, start + len, l.n); assert (c + 1) * l.n == c * l.n + l.n; }
    } else {
      DivUnique(i, l.stripe, 0, i);
    }
  }
}
