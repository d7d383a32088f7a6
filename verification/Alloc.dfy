/** The extent allocator of the tools (shfs_alloc.c): a list of used extents sorted by start, searched
    first-fit. */
module Alloc {
  import opened Lists

  /** Chunks [start, end) are in use. */
  datatype Extent = Extent(start: nat, end: nat)

  /** Sorted and pairwise disjoint. */
  ghost predicate Sorted(x: seq<Extent>) {
    && (forall i :: 0 <= i < |x| ==> x[i].start <= x[i].end)
    && (forall i, j :: 0 <= i < j < |x| ==> x[i].end <= x[j].start)
  }

  ghost predicate Inside(x: seq<Extent>, end: nat) {
    forall i :: 0 <= i < |x| ==> x[i].end <= end
  }

  /** Chunk c belongs to an extent. */
  ghost predicate Used(x: seq<Extent>, c: nat) {
    exists i :: 0 <= i < |x| && x[i].start <= c < x[i].end
  }

  /** The chunks [p, p + len) lie in the area and belong to no extent. */
  ghost predicate Free(x: seq<Extent>, end: nat, p: nat, len: nat) {
    p + len <= end && forall c: nat :: p <= c < p + len ==> !Used(x, c)
  }

  /** What the search takes for a free place: every extent, also an empty one, ends before [p, p + len) or
      starts behind it. */
  ghost predicate Gap(x: seq<Extent>, end: nat, p: nat, len: nat) {
    p + len <= end && forall i :: 0 <= i < |x| ==> x[i].end <= p || (p + len <= x[i].start && p < x[i].start)
  }

  /** r is the lowest such place behind the first extent. */
  ghost predicate FirstGap(x: seq<Extent>, end: nat, len: nat, r: nat) {
    && x != [] && x[0].end <= r && Gap(x, end, r, len)
    && forall q: nat :: x[0].end <= q < r ==> !Gap(x, end, q, len)
  }

  /** Where a new extent goes: behind all that do not start later. */
  function Pos(x: seq<Extent>, start: nat): (k: nat)
    ensures k <= |x| && (k < |x| ==> x[k].start > start) && forall i :: 0 <= i < k ==> x[i].start <= start
  {
    if x == [] || x[0].start > start then 0 else 1 + Pos(x[1..], start)
  }

  function Insert(x: seq<Extent>, e: Extent): seq<Extent> {
    var k := Pos(x, e.start);
    x[..k] + [e] + x[k..]
  }

  /** Using a free place keeps the list sorted and disjoint. */
  lemma InsertSorted(x: seq<Extent>, end: nat, p: nat, len: nat)
    requires Sorted(x) && Inside(x, end) && Gap(x, end, p, len)
    ensures Sorted(Insert(x, Extent(p, p + len))) && Inside(Insert(x, Extent(p, p + len)), end)
  {
    var k := Pos(x, p);
    assert forall i :: 0 <= i < k ==> x[i].end <= p;
    assert forall i :: k <= i < |x| ==> p + len <= x[i].start;
    SpliceSorted(x, k, Extent(p, p + len));
  }

  lemma SpliceSorted(x: seq<Extent>, k: nat, e: Extent)
    requires Sorted(x) && k <= |x| && e.start <= e.end
    requires (forall i :: 0 <= i < k ==> x[i].end <= e.start) && (forall i :: k <= i < |x| ==> e.end <= x[i].start)
    ensures Sorted(x[..k] + [e] + x[k..])
  {
  }

  /* ---- The list, updated in place ---- */

  class AllocList {
    var x: seq<Extent>
    var count: nat
    const end: nat

    predicate Counted()
      reads this
    {
      count == |x|
    }

    constructor (area: nat)
      ensures x == [] && end == area && Counted()
    {
      x, count, end := [], 0, area;
    }

    /** shfs_alist_register */
    method Register(start: nat, len: nat)
      requires Counted()
      modifies this
      ensures Counted() && x == Insert(old(x), Extent(start, start + len))
    {
      var k := 0;
      while k < |x| && x[k].start <= start
        invariant k <= |x| && Pos(x, start) == k + Pos(x[k..], start)
      {
        assert x[k..][1..] == x[k + 1..];
        k := k + 1;
      }
      assert k < |x| ==> x[k..][0] == x[k];
      x := x[..k] + [Extent(start, start + len)] + x[k..];
      count := count + 1;
    }

    /** shfs_alist_unregister: removes the first extent that is exactly the given one. */
    method Unregister(start: nat, len: nat) returns (found: bool)
      requires Counted()
      modifies this
      ensures Counted() && (found <==> Extent(start, start + len) in old(x))
      ensures x == Remove(old(x), Extent(start, start + len))
    {
      var e := Extent(start, start + len);
      var k := 0;
      while k < |x|
        invariant k <= |x| && x == old(x) && count == old(count) && e !in x[..k]
      {
        if x[k] == e {
          RemoveFirst(x, k);
          x := x[..k] + x[k + 1..];
          count := count - 1;
          return true;
        }
        k := k + 1;
      }
      assert x[..k] == x;
      RemoveNone(x, e);
      return false;
    }

    /** _shfs_alist_find_ff: the lowest gap behind the first extent that is long enough, 0 only if there is none.
        It is the lowest place where len chunks are free, and 0 only if there is none, exactly when no empty
        extent lies inside that place. */
    method FindFree(len: nat) returns (r: nat)
      requires Sorted(x) && Inside(x, end) && (x != [] ==> x[0].end > 0)
      ensures r != 0 ==> FirstGap(x, end, len, r)
      ensures r == 0 && len > 0 ==> forall q: nat :: x != [] && x[0].end <= q ==> !Gap(x, end, q, len)
      ensures x != [] && len > 0 ==> (Right(x, end, len, r) <==> !Blocked(x, end, len))
    {
      r := Search(len);
      if x != [] && len > 0 { FirstFitExact(x, end, len, r); }
    }

    /** The loop over the list. */
    method Search(len: nat) returns (r: nat)
      requires Sorted(x) && Inside(x, end) && (x != [] ==> x[0].end > 0)
      ensures r != 0 ==> FirstGap(x, end, len, r)
      ensures r == 0 && len > 0 ==> forall q: nat :: x != [] && x[0].end <= q ==> !Gap(x, end, q, len)
    {
      var e := 0;
      while e < |x|
        invariant e <= |x|
        invariant forall q: nat :: x != [] && x[0].end <= q && (e < |x| ==> q < x[e].end) ==> !Gap(x, end, q, len)
        decreases |x| - e
      {
        var freeStart := x[e].end;
        ghost var e0 := e;
        while e + 1 < |x| && x[e + 1].start <= x[e].end
          invariant e0 <= e < |x| && freeStart == x[e].end
          invariant forall q: nat :: x[0].end <= q < x[e].end ==> !Gap(x, end, q, len)
          decreases |x| - e
        {
          if x[e + 1].end > freeStart { freeStart := x[e + 1].end; }
          ClusterFull(x, end, e, len);
          e := e + 1;
        }
        var freeEnd := if e + 1 < |x| then x[e + 1].start else end;
        if e + 1 == |x| && freeEnd == freeStart {
          if len > 0 { GapShort(x, end, e, len); }
          return 0;
        }
        if freeEnd - freeStart >= len {
          GapFits(x, end, e, len);
          return freeStart;
        }
        GapShort(x, end, e, len);
        e := e + 1;
      }
      return 0;
    }
  }

  lemma {:induction false} RemoveFirst(x: seq<Extent>, k: nat)
    requires k < |x| && x[k] !in x[..k]
    ensures Remove(x, x[k]) == x[..k] + x[k + 1..]
    decreases |x|
  {
    if k > 0 {
      assert x[0] in x[..k] && x[1..][..k - 1] == x[..k][1..];
      RemoveFirst(x[1..], k - 1);
      assert x[..k] == [x[0]] + x[1..][..k - 1];
    }
  }

  lemma {:induction false} RemoveNone(x: seq<Extent>, e: Extent)
    requires e !in x
    ensures Remove(x, e) == x
    decreases |x|
  {
    if x != [] { RemoveNone(x[1..], e); }
  }

  /** Touching extents leave no room between them. */
  lemma ClusterFull(x: seq<Extent>, end: nat, e: nat, len: nat)
    requires Sorted(x) && e + 1 < |x| && x[e + 1].start <= x[e].end
    ensures x[e].end <= x[e + 1].end
    ensures forall q: nat :: x[e].end <= q < x[e + 1].end ==> !Gap(x, end, q, len)
  {
    assert x[e].end == x[e + 1].start;
    forall q: nat | x[e].end <= q < x[e + 1].end ensures !Gap(x, end, q, len) {
      assert !(x[e + 1].end <= q) && !(q < x[e + 1].start);
    }
  }

  /** A gap that is too short holds no place; behind the last extent nothing else comes. */
  lemma GapShort(x: seq<Extent>, end: nat, e: nat, len: nat)
    requires Sorted(x) && Inside(x, end) && e < |x|
    requires var freeEnd := if e + 1 < |x| then x[e + 1].start else end; freeEnd - x[e].end < len
    ensures forall q: nat :: x[e].end <= q && (e + 1 < |x| ==> q < x[e + 1].end) ==> !Gap(x, end, q, len)
  {
    forall q: nat | x[e].end <= q && (e + 1 < |x| ==> q < x[e + 1].end) ensures !Gap(x, end, q, len) {
      if e + 1 < |x| { assert !(x[e + 1].end <= q) && !(q + len <= x[e + 1].start); }
    }
  }

  lemma GapFits(x: seq<Extent>, end: nat, e: nat, len: nat)
    requires Sorted(x) && Inside(x, end) && e < |x|
    requires var freeEnd := if e + 1 < |x| then x[e + 1].start else end; x[e].end + len <= freeEnd
    requires e + 1 < |x| ==> x[e].end < x[e + 1].start
    ensures Gap(x, end, x[e].end, len) && x[0].end <= x[e].end
  {
    var p := x[e].end;
    forall i | 0 <= i < |x| ensures x[i].end <= p || (p + len <= x[i].start && p < x[i].start) {
      if i < e { assert x[i].end <= x[e].start; }
      if i > e + 1 { assert x[e + 1].end <= x[i].start; }
    }
    if e > 0 { assert x[0].end <= x[e].start; }
  }

  /* ---- Whole runs ---- */

  datatype Op = Take(len: nat, at: nat) | Give(e: Extent)

  ghost predicate Allowed(x: seq<Extent>, end: nat, op: Op) {
    match op
    case Take(len, at) => FirstGap(x, end, len, at)
    case Give(e) => e in x && e != x[0]
  }

  function Next(x: seq<Extent>, op: Op): seq<Extent> {
    match op
    case Take(len, at) => Insert(x, Extent(at, at + len))
    case Give(e) => Remove(x, e)
  }

  ghost predicate Good(x: seq<Extent>, end: nat) {
    Sorted(x) && Inside(x, end) && x != [] && x[0].end > 0
  }

  lemma RemoveSorted(x: seq<Extent>, end: nat, e: Extent, k: nat)
    requires Sorted(x) && Inside(x, end) && 0 < k < |x| && x[k] == e && e !in x[..k]
    ensures Sorted(Remove(x, e)) && Inside(Remove(x, e), end) && Remove(x, e) != [] && Remove(x, e)[0] == x[0]
  {
    hide Remove;
    RemoveFirst(x, k);
  }

  lemma {:induction false} FirstAt(x: seq<Extent>, e: Extent) returns (k: nat)
    requires e in x
    ensures k < |x| && x[k] == e && e !in x[..k]
    decreases |x|
  {
    if x[0] == e {
      k := 0;
    } else {
      var j := FirstAt(x[1..], e);
      k := j + 1;
      assert x[..k] == [x[0]] + x[1..][..j];
    }
  }

  lemma OpKeeps(x: seq<Extent>, end: nat, op: Op)
    requires Good(x, end) && Allowed(x, end, op)
    ensures Good(Next(x, op), end) && Next(x, op)[0] == x[0]
  {
    match op
    case Take(len, at) =>
      InsertSorted(x, end, at, len);
      assert x[0].start <= at;
    case Give(e) =>
      var k := FirstAt(x, e);
      RemoveSorted(x, end, e, k);
  }

  ghost predicate Runs(x: seq<Extent>, end: nat, ops: seq<Op>, x': seq<Extent>)
    decreases |ops|
  {
    if ops == [] then x' == x else Allowed(x, end, ops[0]) && Runs(Next(x, ops[0]), end, ops[1..], x')
  }

  /** Over any run of first-fit allocations and releases that starts from the label and table regions,
      the extents stay sorted, disjoint and inside the volume, and the label region stays in use. */
  lemma {:induction false} RunKeeps(x: seq<Extent>, end: nat, ops: seq<Op>, x': seq<Extent>)
    requires Good(x, end) && Runs(x, end, ops, x')
    ensures Good(x', end) && x'[0] == x[0]
    decreases |ops|
  {
    if ops != [] {
      OpKeeps(x, end, ops[0]);
      RunKeeps(Next(x, ops[0]), end, ops[1..], x');
    }
  }

  /** The regions load_vol_alist registers on a freshly formatted volume. */
  lemma FormatGood(tableLen: nat, volsize: nat)
    requires 2 + tableLen <= volsize
    ensures Insert(Insert([], Extent(0, 2)), Extent(2, 2 + tableLen)) == [Extent(0, 2), Extent(2, 2 + tableLen)]
    ensures Good([Extent(0, 2), Extent(2, 2 + tableLen)], volsize)
  {
    assert Pos([Extent(0, 2)], 2) == 1 + Pos([Extent(0, 2)][1..], 2);
  }

  /** A chunk of a new allocation belongs to no other extent. */
  lemma NoOverlap(x: seq<Extent>, end: nat, len: nat, at: nat, c: nat, i: nat)
    requires Good(x, end) && FirstGap(x, end, len, at) && at <= c < at + len && i < |x|
    ensures !(x[i].start <= c < x[i].end)
  {
  }

  /* ---- What first-fit finds, by chunks ---- */

  /** q is the lowest place behind the first extent where len chunks are free. */
  ghost predicate Lowest(x: seq<Extent>, end: nat, len: nat, q: nat) {
    && x != [] && x[0].end <= q && Free(x, end, q, len)
    && forall p: nat :: x[0].end <= p < q ==> !Free(x, end, p, len)
  }

  /** The answer r is right: the lowest free place, or 0 when there is none. */
  ghost predicate Right(x: seq<Extent>, end: nat, len: nat, r: nat)
    requires x != []
  {
    if r != 0 then Lowest(x, end, len, r) else forall q: nat :: x[0].end <= q ==> !Free(x, end, q, len)
  }

  /** Extent i is empty and lies inside [p, p + len). */
  predicate Parts(x: seq<Extent>, p: nat, len: nat, i: nat)
    requires i < |x|
  {
    x[i].start == x[i].end && p < x[i].start < p + len
  }

  /** An empty extent lies inside the lowest free place. */
  ghost predicate Blocked(x: seq<Extent>, end: nat, len: nat) {
    exists q: nat, i: nat :: i < |x| && Lowest(x, end, len, q) && Parts(x, q, len, i)
  }

  /** A gap is a free place with no empty extent inside. */
  lemma GapIsFree(x: seq<Extent>, end: nat, p: nat, len: nat)
    requires Sorted(x) && len > 0
    ensures Gap(x, end, p, len) <==> Free(x, end, p, len) && forall i: nat :: i < |x| ==> !Parts(x, p, len, i)
  {
    if Free(x, end, p, len) && forall i: nat :: i < |x| ==> !Parts(x, p, len, i) {
      forall i | 0 <= i < |x| ensures x[i].end <= p || (p + len <= x[i].start && p < x[i].start) {
        assert !Parts(x, p, len, i);
        var c := if x[i].start > p then x[i].start else p;
        if c < p + len && c < x[i].end { assert Used(x, c); }
      }
    }
  }

  lemma {:induction false} LowestFrom(x: seq<Extent>, end: nat, len: nat, q: nat, p: nat) returns (r: nat)
    requires x != [] && x[0].end <= p <= q && Free(x, end, q, len) && forall k: nat :: x[0].end <= k < p ==> !Free(x, end, k, len)
    ensures Lowest(x, end, len, r) && r <= q
    decreases q - p
  {
    if Free(x, end, p, len) { r := p; } else { r := LowestFrom(x, end, len, q, p + 1); }
  }

  /** First-fit is right for a length exactly when no empty extent lies inside the lowest free place. */
  lemma FirstFitExact(x: seq<Extent>, end: nat, len: nat, r: nat)
    requires Sorted(x) && Inside(x, end) && x != [] && x[0].end > 0 && len > 0
    requires if r != 0 then FirstGap(x, end, len, r) else forall q: nat :: x[0].end <= q ==> !Gap(x, end, q, len)
    ensures Right(x, end, len, r) <==> !Blocked(x, end, len)
  {
    hide Gap, Free;
    forall p: nat ensures Gap(x, end, p, len) ==> Free(x, end, p, len) { GapIsFree(x, end, p, len); }
    if q: nat :| x[0].end <= q && Free(x, end, q, len) {
      var low := LowestFrom(x, end, len, q, x[0].end);
      GapIsFree(x, end, low, len);
    }
  }

  /* ---- When it is right for every length ---- */

  /** Extent i is empty and has free chunks on both sides. */
  ghost predicate Splits(x: seq<Extent>, end: nat, i: nat)
    requires i < |x|
  {
    var s := x[i].start;
    s == x[i].end && x[0].end < s < end && !Used(x, s - 1) && !Used(x, s)
  }

  /** The free chunks around chunk c, from lo on. */
  ghost function RunStart(x: seq<Extent>, lo: nat, c: nat): (a: nat)
    requires lo <= c
    ensures lo <= a <= c && (forall k: nat :: a <= k < c ==> !Used(x, k)) && (a > lo ==> Used(x, a - 1))
  {
    if c == lo || Used(x, c - 1) then c else RunStart(x, lo, c - 1)
  }

  ghost function RunEnd(x: seq<Extent>, end: nat, c: nat): (b: nat)
    requires c <= end
    ensures c <= b <= end && (forall k: nat :: c <= k < b ==> !Used(x, k)) && (b < end ==> Used(x, b))
    decreases end - c
  {
    if c == end || Used(x, c) then c else RunEnd(x, end, c + 1)
  }

  /** The free run that extent i splits is no longer than a place before it. */
  ghost predicate Shadowed(x: seq<Extent>, end: nat, i: nat)
    requires i < |x| && Splits(x, end, i)
  {
    var (a, b) := (RunStart(x, x[0].end, x[i].start), RunEnd(x, end, x[i].start));
    FreeBefore(x, end, a, b - a)
  }

  ghost predicate FreeBefore(x: seq<Extent>, end: nat, a: nat, n: nat)
    requires x != []
  {
    exists q: nat :: x[0].end <= q < a && Free(x, end, q, n)
  }

  /** First-fit is right for every length exactly when every empty extent with free chunks on both sides
      splits a run that is no longer than some place before it. */
  lemma AlwaysRight(x: seq<Extent>, end: nat)
    requires Good(x, end)
    ensures (forall len: nat :: len > 0 ==> !Blocked(x, end, len)) <==> (forall i: nat :: i < |x| && Splits(x, end, i) ==> Shadowed(x, end, i))
  {
    if i: nat :| i < |x| && Splits(x, end, i) && !Shadowed(x, end, i) {
      var (a, b) := (RunStart(x, x[0].end, x[i].start), RunEnd(x, end, x[i].start));
      SplitRun(x, end, i);
      assert Lowest(x, end, b - a, a) && Parts(x, a, b - a, i);
      assert Blocked(x, end, b - a);
    }
    if len: nat :| len > 0 && Blocked(x, end, len) {
      var q: nat, i: nat :| i < |x| && Lowest(x, end, len, q) && Parts(x, q, len, i);
      BlockedSplits(x, end, len, q, i);
    }
  }

  lemma SplitRun(x: seq<Extent>, end: nat, i: nat)
    requires Good(x, end) && i < |x| && Splits(x, end, i)
    ensures var (a, b) := (RunStart(x, x[0].end, x[i].start), RunEnd(x, end, x[i].start));
      a < x[i].start < b && Free(x, end, a, b - a)
  {
  }

  lemma BlockedSplits(x: seq<Extent>, end: nat, len: nat, q: nat, i: nat)
    requires Good(x, end) && i < |x| && Lowest(x, end, len, q) && Parts(x, q, len, i)
    ensures Splits(x, end, i) && !Shadowed(x, end, i)
  {
    var s := x[i].start;
    var (a, b) := (RunStart(x, x[0].end, s), RunEnd(x, end, s));
    assert !Used(x, s - 1) && !Used(x, s);
    assert b >= q + len;
    if a < q { FreeLower(x, end, a, q, s, len); }
    NotBefore(x, end, len, q, b - a);
  }

  lemma FreeLower(x: seq<Extent>, end: nat, a: nat, q: nat, s: nat, len: nat)
    requires a <= q < s && Free(x, end, q, len) && forall k: nat :: a <= k < s ==> !Used(x, k)
    ensures Free(x, end, a, len)
  {
  }

  lemma NotBefore(x: seq<Extent>, end: nat, len: nat, q: nat, n: nat)
    requires Lowest(x, end, len, q) && len <= n
    ensures !FreeBefore(x, end, q, n)
  {
    forall p: nat | x[0].end <= p < q ensures !Free(x, end, p, n) { assert !Free(x, end, p, len); }
  }

  /** In particular when no extent but the first is empty. */
  lemma NonEmptyRight(x: seq<Extent>, end: nat, len: nat)
    requires Good(x, end) && len > 0 && forall i :: 0 < i < |x| ==> x[i].start < x[i].end
    ensures !Blocked(x, end, len)
  {
    AlwaysRight(x, end);
    assert forall i: nat :: i < |x| ==> !Splits(x, end, i);
  }

  /** The search sees every free place exactly when no empty extent has free chunks on both sides. */
  lemma SeesAllFree(x: seq<Extent>, end: nat)
    requires Good(x, end)
    ensures (forall p: nat, len: nat :: x[0].end <= p && len > 0 && Free(x, end, p, len) ==> Gap(x, end, p, len))
      <==> (forall i: nat :: i < |x| ==> !Splits(x, end, i))
  {
    if i: nat :| i < |x| && Splits(x, end, i) {
      var s := x[i].start;
      assert Free(x, end, s - 1, 2) && Parts(x, s - 1, 2, i);
      GapIsFree(x, end, s - 1, 2);
    }
    if p: nat, len: nat :| x[0].end <= p && len > 0 && Free(x, end, p, len) && !Gap(x, end, p, len) {
      GapIsFree(x, end, p, len);
      var i: nat :| i < |x| && Parts(x, p, len, i);
      assert !Used(x, x[i].start - 1) && !Used(x, x[i].start);
      assert Splits(x, end, i);
    }
  }

  /** A volume of 8 chunks after a file of two chunks and then an empty file were added, and the first one
      removed: chunks 3 to 7 are free, but a place for four is not found. */
  lemma EmptyFileBlocks() returns (x: seq<Extent>)
    ensures Runs([Extent(0, 2), Extent(2, 3)], 8, [Take(2, 3), Take(0, 5), Give(Extent(3, 5))], x)
    ensures Good(x, 8) && Free(x, 8, 3, 5) && Blocked(x, 8, 4)
    ensures forall q: nat :: x[0].end <= q ==> !Gap(x, 8, q, 4)
  {
    var x0 := [Extent(0, 2), Extent(2, 3)];
    var x1 := x0 + [Extent(3, 5)];
    var x2 := x1 + [Extent(5, 5)];
    x := [Extent(0, 2), Extent(2, 3), Extent(5, 5)];
    InsertLast(x0, Extent(3, 5));
    InsertLast(x1, Extent(5, 5));
    RemoveFirst(x2, 2);
    hide Runs;
    ExampleSteps(x0, x1, x2, x);
    ExampleState(x);
  }

  lemma ExampleState(x: seq<Extent>)
    requires x == [Extent(0, 2), Extent(2, 3), Extent(5, 5)]
    ensures Good(x, 8) && Free(x, 8, 3, 5) && Blocked(x, 8, 4)
    ensures forall q: nat :: x[0].end <= q ==> !Gap(x, 8, q, 4)
  {
    assert x[1] == Extent(2, 3) && x[2] == Extent(5, 5);
    assert Used(x, 2);
    assert !Free(x, 8, 2, 4);
    assert Lowest(x, 8, 4, 3) && Parts(x, 3, 4, 2);
  }

  lemma ExampleSteps(x0: seq<Extent>, x1: seq<Extent>, x2: seq<Extent>, x: seq<Extent>)
    requires x0 == [Extent(0, 2), Extent(2, 3)] && x1 == x0 + [Extent(3, 5)] && x2 == x1 + [Extent(5, 5)]
    requires x == x2[..2] + x2[3..] == Remove(x2, Extent(3, 5))
    requires Insert(x0, Extent(3, 5)) == x1 && Insert(x1, Extent(5, 5)) == x2
    ensures Runs(x0, 8, [Take(2, 3), Take(0, 5), Give(Extent(3, 5))], x)
  {
    hide Insert, Remove;
    var ops := [Take(2, 3), Take(0, 5), Give(Extent(3, 5))];
    assert ops[1..] == [Take(0, 5), Give(Extent(3, 5))] && ops[1..][1..] == [Give(Extent(3, 5))] && ops[1..][1..][1..] == [];
    assert x0[1] == x1[1] == Extent(2, 3) && x1[2] == x2[2] == Extent(3, 5);
    assert Allowed(x0, 8, ops[0]);
    assert Allowed(x1, 8, ops[1]);
    assert Allowed(x2, 8, ops[2]);
    assert Runs(x, 8, ops[1..][1..][1..], x);
    assert Runs(x2, 8, ops[1..][1..], x);
    assert Runs(x1, 8, ops[1..], x);
  }

  lemma {:induction false} InsertLast(x: seq<Extent>, e: Extent)
    requires forall i :: 0 <= i < |x| ==> x[i].start <= e.start
    ensures Insert(x, e) == x + [e]
    decreases |x|
  {
    assert Pos(x, e.start) == |x|;
  }
}
