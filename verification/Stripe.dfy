/** Where the bytes of a volume lie on its members (shfs.c, tools_common.c, shfs_mkfs.c). */
module Stripe {
  import opened Lists
  import opened Arith

  datatype Mode = Independent | Combined

  /** Members, stripe size and mode; each member's row 0 holds its label. */
  datatype Layout = Layout(mode: Mode, n: nat, stripe: nat) {
    predicate Ok() { n > 0 && stripe > 0 }

    /** SHFS_CHUNKSIZE */
    function ChunkSize(): nat { if mode.Combined? then stripe * n else stripe }

    /** First stripe of a chunk; the last one is before that of the next chunk. */
    function FirstStripe(c: nat): nat
      requires n > 0
    {
      if mode.Combined? then c * n else c + (n - 1)
    }
  }

  /** A byte of a member device. */
  datatype Spot = Spot(member: nat, at: nat)

  /** Member and byte of a stripe, as the tools compute it. */
  function StripeSpot(l: Layout, strp: nat): Spot
    requires l.Ok()
  {
    Spot(strp % l.n, (strp / l.n) * l.stripe)
  }

  /** Byte i of chunk c on the devices. */
  function Locate(l: Layout, c: nat, i: nat): Spot
    requires l.Ok()
  {
    var s := StripeSpot(l, l.FirstStripe(c) + i / l.stripe);
    s.(at := s.at + i % l.stripe)
  }

  /** The chunk and byte that lie at a spot outside row 0. */
  function Owner(l: Layout, s: Spot): (nat, nat)
    requires l.Ok() && s.at >= l.stripe
  {
    var row := s.at / l.stripe;
    if l.mode.Combined? then (row, s.member * l.stripe + s.at % l.stripe)
    else
      DivMonotone(l.stripe, s.at, l.stripe);
      DivUnique(l.stripe, l.stripe, 1, 0);
      MulMonotone(1, row, l.n);
      (row * l.n + s.member - (l.n - 1), s.at % l.stripe)
  }

  lemma MulNat(a: nat, b: nat)
    ensures a * b >= 0
  {
  }

  /** Row, member and byte of Locate. */
  lemma LocateParts(l: Layout, c: nat, i: nat)
    requires l.Ok() && c >= 1 && i < l.ChunkSize()
    ensures var s := Locate(l, c, i);
      && s.at % l.stripe == i % l.stripe && s.at / l.stripe >= 1 && s.member < l.n
      && s.at / l.stripe == (l.FirstStripe(c) + i / l.stripe) / l.n && s.member == (l.FirstStripe(c) + i / l.stripe) % l.n
  {
    var strp := l.FirstStripe(c) + i / l.stripe;
    FirstRow(l, c, i / l.stripe);
    SpotParts(strp / l.n, i % l.stripe, l.stripe);
  }

  lemma SpotParts(row: nat, r: nat, stripe: nat)
    requires r < stripe
    ensures row * stripe >= 0 && (row * stripe + r) / stripe == row && (row * stripe + r) % stripe == r
  {
    MulNat(row, stripe);
    DivUnique(row * stripe + r, stripe, row, r);
  }

  lemma FirstRow(l: Layout, c: nat, j: nat)
    requires l.Ok() && c >= 1
    ensures (l.FirstStripe(c) + j) / l.n >= 1
  {
    var strp := l.FirstStripe(c) + j;
    if l.mode.Combined? { MulMonotone(1, c, l.n); }
    DivMonotone(l.n, strp, l.n);
    DivUnique(l.n, l.n, 1, 0);
  }

  /** No chunk from 1 on touches row 0, where every member's label lives. */
  lemma LabelSafe(l: Layout, c: nat, i: nat)
    requires l.Ok() && c >= 1 && i < l.ChunkSize()
    ensures Locate(l, c, i).at >= l.stripe && Locate(l, c, i).member < l.n
  {
    var s := Locate(l, c, i);
    LocateParts(l, c, i);
    DivEquation(s.at, l.stripe);
    MulMonotone(1, s.at / l.stripe, l.stripe);
  }

  lemma CombinedOwner(l: Layout, c: nat, i: nat)
    requires l.Ok() && c >= 1 && i < l.ChunkSize() && l.mode.Combined?
    ensures (l.FirstStripe(c) + i / l.stripe) / l.n == c && (l.FirstStripe(c) + i / l.stripe) % l.n == i / l.stripe
  {
    DivEquation(i, l.stripe);
    if i / l.stripe >= l.n { MulMonotone(l.n, i / l.stripe, l.stripe); }
    DivUnique(c * l.n + i / l.stripe, l.n, c, i / l.stripe);
  }

  /** The layout is injective: the spot tells chunk and byte. */
  lemma OwnerOfLocate(l: Layout, c: nat, i: nat)
    requires l.Ok() && c >= 1 && i < l.ChunkSize()
    ensures Locate(l, c, i).at >= l.stripe && Owner(l, Locate(l, c, i)) == (c, i)
  {
    LabelSafe(l, c, i);
    LocateParts(l, c, i);
    if l.mode.Combined? {
      CombinedOwner(l, c, i);
      DivEquation(i, l.stripe);
    } else {
      DivUnique(i, l.stripe, 0, i);
      DivEquation(c + (l.n - 1), l.n);
    }
  }

  /** And it is onto: every spot outside row 0 belongs to a chunk. */
  lemma LocateOfOwner(l: Layout, s: Spot)
    requires l.Ok() && s.at >= l.stripe && s.member < l.n
    ensures var (c, i) := Owner(l, s); c >= 1 && i < l.ChunkSize() && Locate(l, c, i) == s
  {
    var row, r := s.at / l.stripe, s.at % l.stripe;
    DivEquation(s.at, l.stripe);
    DivMonotone(l.stripe, s.at, l.stripe);
    DivUnique(l.stripe, l.stripe, 1, 0);
    DivUnique(row * l.n + s.member, l.n, row, s.member);
    if l.mode.Combined? {
      DivUnique(s.member * l.stripe + r, l.stripe, s.member, r);
      MulMonotone(s.member + 1, l.n, l.stripe);
      assert (s.member + 1) * l.stripe == s.member * l.stripe + l.stripe;
      assert l.n * l.stripe == l.stripe * l.n;
    } else {
      DivUnique(r, l.stripe, 0, r);
      MulMonotone(1, row, l.n);
    }
  }

  /** The runtime counts in sectors, with stripe / ssize sectors to a stripe: it addresses the same
      bytes as the tools for every stripe exactly when the sector size divides the stripe size. */
  function RuntimeByte(l: Layout, strp: nat, ssize: nat): nat
    requires l.Ok() && ssize > 0
  {
    ((strp / l.n) * (l.stripe / ssize)) * ssize
  }

  lemma SectorsAgree(l: Layout, ssize: nat)
    requires l.Ok() && ssize > 0
    ensures (forall strp: nat :: RuntimeByte(l, strp, ssize) == StripeSpot(l, strp).at) <==> l.stripe % ssize == 0
  {
    var k := l.stripe / ssize;
    DivEquation(l.stripe, ssize);
    if l.stripe % ssize == 0 {
      forall strp: nat ensures RuntimeByte(l, strp, ssize) == StripeSpot(l, strp).at {
        assert ((strp / l.n) * k) * ssize == (strp / l.n) * (k * ssize);
      }
    } else {
      DivUnique(l.n, l.n, 1, 0);
      assert RuntimeByte(l, l.n, ssize) == (1 * k) * ssize && StripeSpot(l, l.n).at == 1 * l.stripe;
    }
  }

  /* ---- The order of the stripes ---- */

  /** The stripes of a volume, dealt to the members in turn, row by row. */
  function Dealt(l: Layout, k: nat): (s: Spot)
    requires l.Ok()
    ensures s.member < l.n
  {
    if k == 0 then Spot(0, 0)
    else
      var s := Dealt(l, k - 1);
      if s.member + 1 < l.n then Spot(s.member + 1, s.at) else Spot(0, s.at + l.stripe)
  }

  lemma {:induction false} SpotDealt(l: Layout, k: nat)
    requires l.Ok()
    ensures StripeSpot(l, k) == Dealt(l, k)
  {
    if k == 0 {
      DivUnique(0, l.n, 0, 0);
    } else {
      SpotDealt(l, k - 1);
      var (q, r) := ((k - 1) / l.n, (k - 1) % l.n);
      DivEquation(k - 1, l.n);
      assert (q + 1) * l.n == q * l.n + l.n;
      assert (q + 1) * l.stripe == q * l.stripe + l.stripe;
      if r + 1 < l.n { DivUnique(k, l.n, q, r + 1); } else { DivUnique(k, l.n, q + 1, 0); }
    }
  }

  /** In both modes the chunks, from chunk 1 on, lie one behind the other along the stripes behind the row of
      labels: byte j of them is byte j % stripe of the stripe dealt j / stripe stripes after the labels. */
  lemma ChunksInOrder(l: Layout, j: nat)
    requires l.Ok()
    ensures l.ChunkSize() > 0
    ensures var s := Dealt(l, l.n + j / l.stripe);
      Locate(l, 1 + j / l.ChunkSize(), j % l.ChunkSize()) == Spot(s.member, s.at + j % l.stripe)
  {
    SpotDealt(l, l.n + j / l.stripe);
    if l.mode.Combined? {
      CombinedByte(l, j);
    } else {
      DivUnique(j % l.stripe, l.stripe, 0, j % l.stripe);
    }
  }

  lemma CombinedByte(l: Layout, j: nat)
    requires l.Ok() && l.mode.Combined?
    ensures l.ChunkSize() > 0
    ensures var (c, i) := (1 + j / l.ChunkSize(), j % l.ChunkSize());
      c * l.n + i / l.stripe == l.n + j / l.stripe && i % l.stripe == j % l.stripe
  {
    MulMonotone(1, l.n, l.stripe);
    assert l.ChunkSize() == l.n * l.stripe;
    var (q, i) := (j / l.ChunkSize(), j % l.ChunkSize());
    DivEquation(j, l.ChunkSize());
    DivEquation(i, l.stripe);
    var (a, r) := (i / l.stripe, i % l.stripe);
    MulNat(q, l.n);
    assert q * l.ChunkSize() == (q * l.n) * l.stripe;
    assert (q * l.n + a) * l.stripe == (q * l.n) * l.stripe + a * l.stripe;
    DivUnique(j, l.stripe, q * l.n + a, r);
    assert (1 + q) * l.n == l.n + q * l.n;
  }

  /* ---- Volume size ---- */

  /** The row of the last stripe of a chunk. */
  function LastRowOf(l: Layout, c: nat): nat
    requires l.Ok()
  {
    (l.FirstStripe(c) + (if l.mode.Combined? then l.n - 1 else 0)) / l.n
  }

  /** A chunk's stripes all end inside a member of size dsize. */
  predicate Fits(l: Layout, c: nat, dsize: nat)
    requires l.Ok()
  {
    (LastRowOf(l, c) + 1) * l.stripe <= dsize
  }

  /** The volume size mkfs writes for the smallest member size. */
  function MkfsSize(l: Layout, dsize: nat): int
    requires l.Ok()
  {
    if l.mode.Combined? then (dsize - l.ChunkSize() + l.stripe) / l.stripe
    else ((dsize - l.ChunkSize()) / l.ChunkSize()) * l.n
  }

  /** The member size the mount demands. */
  function MountSize(l: Layout, volsize: nat): nat
    requires l.Ok()
  {
    if l.mode.Combined? then (volsize + 1) * l.stripe else ((volsize + 1) / l.n) * l.stripe
  }

  lemma LastRow(l: Layout, c: nat)
    requires l.Ok()
    ensures Fits(l, c, (if l.mode.Combined? then c + 1 else (c + (l.n - 1)) / l.n + 1) * l.stripe)
    ensures forall d: nat :: Fits(l, c, d) <==> (if l.mode.Combined? then c + 1 else (c + (l.n - 1)) / l.n + 1) * l.stripe <= d
  {
    if l.mode.Combined? { DivUnique(c * l.n + (l.n - 1), l.n, c, l.n - 1); }
  }

  /** A formatted volume is addressable: with the modes mkfs chooses (combined only for two or more
      members), every chunk of the volume fits into the smallest member, and the mount accepts it. */
  lemma MkfsAddressable(l: Layout, dsize: nat, c: nat)
    requires l.Ok() && (l.mode.Combined? ==> l.n >= 2) && dsize >= l.ChunkSize()
    ensures MkfsSize(l, dsize) >= 0
    ensures 1 <= c <= MkfsSize(l, dsize) ==> Fits(l, c, dsize)
    ensures MountSize(l, MkfsSize(l, dsize)) <= dsize
  {
    if l.mode.Combined? { CombinedSize(l, dsize, c); } else { IndependentSize(l, dsize, c); }
  }

  /** How many more chunks would fit than the size mkfs writes: none, except that combined striping over n
      members leaves n - 2 rows unused. */
  function Unused(l: Layout): nat
    requires l.Ok() && (l.mode.Combined? ==> l.n >= 2)
  {
    if l.mode.Combined? then l.n - 2 else 0
  }

  /** Exactly the chunks up to that size, and the unused ones behind it, fit into the smallest member. */
  lemma MkfsExact(l: Layout, dsize: nat, c: nat)
    requires l.Ok() && (l.mode.Combined? ==> l.n >= 2) && dsize >= l.ChunkSize()
    ensures Fits(l, c, dsize) <==> c <= MkfsSize(l, dsize) + Unused(l)
  {
    hide Fits, MkfsSize;
    LastRow(l, c);
    SizeInRows(l, dsize);
    if l.mode.Combined? {
      RowsFit(l, c + 1, dsize);
    } else {
      RowsFit(l, (c + (l.n - 1)) / l.n + 1, dsize);
      RowOf(l, c, dsize / l.stripe - 1);
    }
  }

  /** The size mkfs writes, by the number of whole rows of a member. */
  lemma SizeInRows(l: Layout, dsize: nat)
    requires l.Ok() && dsize >= l.ChunkSize()
    ensures var k := dsize / l.stripe;
      k >= 1 && MkfsSize(l, dsize) == if l.mode.Combined? then k - l.n + 1 else (k - 1) * l.n
  {
    var (k, r) := (dsize / l.stripe, dsize % l.stripe);
    DivEquation(dsize, l.stripe);
    var m := if l.mode.Combined? then l.n else 1;
    DivUnique(m * l.stripe, l.stripe, m, 0);
    DivMonotone(m * l.stripe, dsize, l.stripe);
    assert (k - m) * l.stripe == k * l.stripe - m * l.stripe;
    assert (k - m + 1) * l.stripe == k * l.stripe - m * l.stripe + l.stripe;
    if l.mode.Combined? { DivUnique(dsize - l.ChunkSize() + l.stripe, l.stripe, k - m + 1, r); } else { DivUnique(dsize - l.stripe, l.stripe, k - m, r); }
  }

  lemma RowsFit(l: Layout, rows: nat, dsize: nat)
    requires l.Ok()
    ensures rows * l.stripe <= dsize <==> rows <= dsize / l.stripe
  {
    var k := dsize / l.stripe;
    DivEquation(dsize, l.stripe);
    if rows <= k {
      MulMonotone(rows, k, l.stripe);
    } else {
      MulMonotone(k + 1, rows, l.stripe);
      assert (k + 1) * l.stripe == k * l.stripe + l.stripe;
    }
  }

  lemma RowOf(l: Layout, c: nat, k: nat)
    requires l.Ok()
    ensures (c + (l.n - 1)) / l.n <= k <==> c <= k * l.n
  {
    MulNat(k, l.n);
    DivUnique(k * l.n + (l.n - 1), l.n, k, l.n - 1);
    assert (k + 1) * l.n == k * l.n + l.n;
    DivUnique((k + 1) * l.n, l.n, k + 1, 0);
    if c <= k * l.n {
      DivMonotone(c + (l.n - 1), k * l.n + (l.n - 1), l.n);
    } else {
      DivMonotone((k + 1) * l.n, c + (l.n - 1), l.n);
    }
  }

  /** The size mkfs writes is the largest that fits exactly for independent members or two combined ones. */
  lemma MkfsLargest(l: Layout, dsize: nat)
    requires l.Ok() && (l.mode.Combined? ==> l.n >= 2) && dsize >= l.ChunkSize()
    ensures MkfsSize(l, dsize) >= 0
    ensures !Fits(l, MkfsSize(l, dsize) + 1, dsize) <==> l.mode.Independent? || l.n == 2
  {
    MkfsAddressable(l, dsize, 1);
    MkfsExact(l, dsize, MkfsSize(l, dsize) + 1);
  }

  /** Three combined members of 1 MiB with stripes of 4096 bytes: the volume gets 254 chunks, 255 fit. */
  lemma MkfsWastes()
    ensures var l := Layout(Combined, 3, 4096); MkfsSize(l, 0x10_0000) == 254 && Fits(l, 255, 0x10_0000) && !Fits(l, 256, 0x10_0000)
  {
  }

  /** The last byte of a chunk is the last one of its row. */
  lemma EndByte(l: Layout, c: nat)
    requires l.Ok()
    ensures l.ChunkSize() > 0 && Locate(l, c, l.ChunkSize() - 1).at == (LastRowOf(l, c) + 1) * l.stripe - 1
  {
    var last := if l.mode.Combined? then l.n - 1 else 0;
    MulNat(last, l.stripe);
    assert (last + 1) * l.stripe == last * l.stripe + l.stripe;
    assert l.ChunkSize() == last * l.stripe + l.stripe;
    DivUnique(l.ChunkSize() - 1, l.stripe, last, l.stripe - 1);
    var row := LastRowOf(l, c);
    assert (row + 1) * l.stripe == row * l.stripe + l.stripe;
  }

  lemma ByteBelow(l: Layout, c: nat, i: nat)
    requires l.Ok() && i < l.ChunkSize()
    ensures Locate(l, c, i).at < (LastRowOf(l, c) + 1) * l.stripe
  {
    var last := if l.mode.Combined? then l.n - 1 else 0;
    var (row, own) := (LastRowOf(l, c), (l.FirstStripe(c) + i / l.stripe) / l.n);
    DivEquation(i, l.stripe);
    if i / l.stripe > last { MulMonotone(last + 1, i / l.stripe, l.stripe); }
    DivMonotone(l.FirstStripe(c) + i / l.stripe, l.FirstStripe(c) + last, l.n);
    MulMonotone(own, row, l.stripe);
    assert (row + 1) * l.stripe == row * l.stripe + l.stripe;
  }

  /** A chunk fits into members of a size exactly when all of its bytes lie inside them. */
  lemma FitsExactly(l: Layout, c: nat, dsize: nat)
    requires l.Ok()
    ensures Fits(l, c, dsize) <==> forall i: nat :: i < l.ChunkSize() ==> Locate(l, c, i).at < dsize
  {
    hide Locate;
    EndByte(l, c);
    forall i: nat | i < l.ChunkSize() ensures Locate(l, c, i).at < (LastRowOf(l, c) + 1) * l.stripe { ByteBelow(l, c, i); }
  }

  lemma CombinedSize(l: Layout, dsize: nat, c: nat)
    requires l.Ok() && l.mode.Combined? && l.n >= 2 && dsize >= l.ChunkSize()
    ensures MkfsSize(l, dsize) >= 0 && MountSize(l, MkfsSize(l, dsize)) <= dsize
    ensures c <= MkfsSize(l, dsize) ==> Fits(l, c, dsize)
  {
    hide Fits;
    var v := MkfsSize(l, dsize);
    DivEquation(dsize - l.ChunkSize() + l.stripe, l.stripe);
    assert (v + 1) * l.stripe == v * l.stripe + l.stripe;
    MulMonotone(2, l.n, l.stripe);
    assert l.n * l.stripe == l.stripe * l.n;
    LastRow(l, c);
    if c <= v { MulMonotone(c + 1, v + 1, l.stripe); }
  }

  lemma IndependentSize(l: Layout, dsize: nat, c: nat)
    requires l.Ok() && l.mode.Independent? && dsize >= l.stripe
    ensures MkfsSize(l, dsize) >= 0 && MountSize(l, MkfsSize(l, dsize)) <= dsize
    ensures c <= MkfsSize(l, dsize) ==> Fits(l, c, dsize)
  {
    var k := (dsize - l.stripe) / l.stripe;
    DivEquation(dsize - l.stripe, l.stripe);
    assert (k + 1) * l.stripe == k * l.stripe + l.stripe;
    DivUnique(k * l.n + (l.n - 1), l.n, k, l.n - 1);
    MulNat(k, l.n);
    LastRow(l, c);
    if c <= k * l.n {
      DivMonotone(c + (l.n - 1), k * l.n + (l.n - 1), l.n);
      MulMonotone((c + (l.n - 1)) / l.n + 1, k + 1, l.stripe);
    }
    if l.n == 1 {
      DivUnique(k * 1 + 1, 1, k + 1, 0);
    } else {
      DivUnique(k * l.n + 1, l.n, k, 1);
      MulMonotone(k, k + 1, l.stripe);
    }
  }

  /** Taken alone, the mount's size check guarantees that the last chunk fits, for every member size it
      accepts, exactly when striping is combined or there is one member. */
  lemma MountCheckSound(l: Layout, volsize: nat)
    requires l.Ok() && volsize >= 1
    ensures (forall d: nat :: MountSize(l, volsize) <= d ==> Fits(l, volsize, d)) <==> l.mode.Combined? || l.n == 1
  {
    var need := (if l.mode.Combined? then volsize + 1 else (volsize + (l.n - 1)) / l.n + 1) * l.stripe;
    LastRow(l, volsize);
    if l.mode.Independent? {
      if l.n == 1 {
        DivUnique(volsize + 1, 1, volsize + 1, 0);
        DivUnique(volsize + 0, 1, volsize, 0);
      } else {
        DivMonotone(volsize + 1, volsize + (l.n - 1), l.n);
        var (a, b) := ((volsize + 1) / l.n, (volsize + (l.n - 1)) / l.n);
        MulMonotone(a, b, l.stripe);
        assert (b + 1) * l.stripe == b * l.stripe + l.stripe;
        assert !Fits(l, volsize, MountSize(l, volsize));
      }
    }
  }

  /** Two independent members of one stripe of 4096 bytes each, and a volume of one chunk: the mount accepts
      them, but chunk 1 lies behind their end. */
  lemma MountCheckMisses()
    ensures var l := Layout(Independent, 2, 4096); MountSize(l, 1) <= 4096 && !Fits(l, 1, 4096)
  {
  }
}
