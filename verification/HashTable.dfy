/** The bucketed hash table of files (htable.h, shfs_btable.h): slots addressed by bucket, the used ones
    threaded by a list. */
module HashTable {
  import opened Lists
  import opened Arith

  /** The first hlen bytes of a hash512_t. */
  type Digest = seq<Byte>

  predicate IsZero(d: Digest) { forall i :: 0 <= i < |d| ==> d[i] == 0 }

  function Zero(hlen: nat): (d: Digest)
    ensures IsZero(d) && |d| == hlen
  {
    seq(hlen, _ => 0)
  }

  /** Little-endian value. */
  function Value(d: seq<Byte>): nat { if d == [] then 0 else d[0] + 256 * Value(d[1..]) }

  /** _htable_bkt_no: the variable for the longer digests has 32 bits, so four bytes decide. */
  function Bucket(d: Digest, n: nat): (b: nat)
    requires n > 0
    ensures b < n
  {
    Value(if |d| < 4 then d else d[..4]) % n
  }

  /** Slot i belongs to bucket i / per. */
  ghost predicate Homed(h: seq<Digest>, nb: nat, per: nat) {
    nb > 0 && per > 0 && forall i :: 0 <= i < |h| && !IsZero(h[i]) ==> i / per == Bucket(h[i], nb)
  }

  ghost predicate Unique(h: seq<Digest>) {
    forall i, j :: 0 <= i < |h| && 0 <= j < |h| && !IsZero(h[i]) && h[i] == h[j] ==> i == j
  }

  /** The element list holds exactly the used slots, each once. */
  ghost predicate Linked(h: seq<Digest>, list: seq<nat>) {
    NoDup(list) && forall i: nat :: i in list <==> i < |h| && !IsZero(h[i])
  }

  lemma SlotHome(b: nat, i: nat, nb: nat, per: nat)
    requires b < nb && i < per
    ensures 0 <= b * per + i < nb * per && (b * per + i) / per == b
  {
    MulMonotone(0, b, per);
    MulMonotone(b + 1, nb, per);
    assert (b + 1) * per == b * per + per;
    DivUnique(b * per + i, per, b, i);
  }

  /** A slot whose home is bucket b is one of the per slots from b * per on. */
  lemma HomeSlot(k: nat, b: nat, per: nat)
    requires per > 0 && k / per == b
    ensures b * per <= k < b * per + per
  {
    DivEquation(k, per);
  }

  /** The first slot of a digest's bucket. */
  function Base(d: Digest, nb: nat, per: nat): nat
    requires nb > 0
  {
    Bucket(d, nb) * per
  }

  ghost predicate BucketFull(h: seq<Digest>, d: Digest, nb: nat, per: nat)
    requires nb > 0 && per > 0
  {
    forall k: nat :: k < |h| && k / per == Bucket(d, nb) ==> !IsZero(h[k])
  }

  lemma BucketInside(d: Digest, nb: nat, per: nat)
    requires nb > 0 && per > 0
    ensures Base(d, nb, per) + per <= nb * per
  {
    SlotHome(Bucket(d, nb), per - 1, nb, per);
  }

  lemma InBucket(d: Digest, k: nat, nb: nat, per: nat)
    requires nb > 0 && Base(d, nb, per) <= k < Base(d, nb, per) + per
    ensures k / per == Bucket(d, nb)
  {
    SlotHome(Bucket(d, nb), k - Base(d, nb, per), nb, per);
  }

  lemma AllUsed(h: seq<Digest>, d: Digest, nb: nat, per: nat)
    requires nb > 0 && per > 0
    requires forall j :: Base(d, nb, per) <= j < Base(d, nb, per) + per && j < |h| ==> !IsZero(h[j])
    ensures BucketFull(h, d, nb, per)
  {
    forall k: nat | k < |h| && k / per == Bucket(d, nb) ensures !IsZero(h[k]) { HomeSlot(k, Bucket(d, nb), per); }
  }

  lemma LinkSet(h: seq<Digest>, list: seq<nat>, i: nat, d: Digest)
    requires Linked(h, list) && i < |h| && IsZero(h[i]) && !IsZero(d)
    ensures Linked(h[i := d], list + [i])
  {
    NoDupAppend(list, i);
  }

  lemma LinkClear(h: seq<Digest>, list: seq<nat>, i: nat, d: Digest)
    requires Linked(h, list) && i < |h| && IsZero(d)
    ensures Linked(h[i := d], Remove(list, i))
  {
    RemoveNoDup(list, i);
  }

  /** No slot of the digest's bucket before k is empty. */
  ghost predicate UsedBefore(h: seq<Digest>, d: Digest, k: nat, nb: nat, per: nat)
    requires nb > 0 && per > 0 && k <= |h|
  {
    forall j: nat :: j < k && j / per == Bucket(d, nb) ==> !IsZero(h[j])
  }

  lemma FirstEmpty(h: seq<Digest>, d: Digest, k: nat, nb: nat, per: nat)
    requires nb > 0 && per > 0 && k <= |h| && forall j :: Base(d, nb, per) <= j < k ==> 0 <= j && !IsZero(h[j])
    ensures UsedBefore(h, d, k, nb, per)
  {
    forall j: nat | j < k && j / per == Bucket(d, nb) ensures !IsZero(h[j]) { DivEquation(j, per); }
  }

  class HTable {
    const nb: nat
    const per: nat
    const hlen: nat
    var h: seq<Digest>
    var list: seq<nat>

    ghost predicate Valid()
      reads this
    {
      nb > 0 && per > 0 && |h| == nb * per && Linked(h, list) && forall i :: 0 <= i < |h| ==> |h[i]| == hlen
    }

    constructor (buckets: nat, perBucket: nat, hl: nat)
      requires buckets > 0 && perBucket > 0
      ensures Valid() && nb == buckets && per == perBucket && hlen == hl && list == [] && h == seq(buckets * perBucket, _ => Zero(hl))
    {
      nb, per, hlen := buckets, perBucket, hl;
      h := seq(buckets * perBucket, _ => Zero(hl));
      list := [];
    }

    /** htable_lookup: finds a stored digest, and only a stored one, when every digest is in its bucket. */
    method Lookup(d: Digest) returns (r: Option<nat>)
      requires Valid()
      ensures r.Some? ==> r.value < |h| && h[r.value] == d && !IsZero(d)
      ensures Homed(h, nb, per) ==> (r.Some? <==> !IsZero(d) && d in h)
    {
      if IsZero(d) { return None; }
      var base := Base(d, nb, per);
      BucketInside(d, nb, per);
      for k := base to base + per
        invariant forall j :: base <= j < k ==> h[j] != d
      {
        if h[k] == d { return Some(k); }
      }
      if Homed(h, nb, per) { NotInBucket(h, d, nb, per); }
      return None;
    }

    /** htable_add: the first empty slot of the digest's bucket. */
    method Add(d: Digest) returns (r: Option<nat>)
      requires Valid() && |d| == hlen
      modifies this
      ensures Valid()
      ensures r.Some? ==> r.value < |h| && IsZero(old(h)[r.value]) && !IsZero(d) && r.value / per == Bucket(d, nb)
      ensures r.Some? ==> h == old(h)[r.value := d] && list == old(list) + [r.value]
      ensures r.Some? ==> UsedBefore(old(h), d, r.value, nb, per)
      ensures r.None? ==> h == old(h) && list == old(list)
      ensures r.None? ==> IsZero(d) || BucketFull(h, d, nb, per)
    {
      if IsZero(d) { return None; }
      var base := Base(d, nb, per);
      BucketInside(d, nb, per);
      for k := base to base + per
        invariant h == old(h) && list == old(list) && forall j :: base <= j < k ==> !IsZero(h[j])
      {
        if IsZero(h[k]) {
          InBucket(d, k, nb, per);
          FirstEmpty(h, d, k, nb, per);
          LinkSet(h, list, k, d);
          h, list := h[k := d], list + [k];
          return Some(k);
        }
      }
      AllUsed(h, d, nb, per);
      return None;
    }

    /** htable_lookup_add: one pass finds the digest or remembers the first empty slot.  A homed table stays
        homed, and its digests stay unique. */
    method LookupAdd(d: Digest) returns (r: Option<nat>, isNew: bool)
      requires Valid() && |d| == hlen && Homed(h, nb, per) && Unique(h)
      modifies this
      ensures Valid() && Homed(h, nb, per) && Unique(h)
      ensures r.Some? ==> r.value < |h| && h[r.value] == d && !IsZero(d)
      ensures isNew ==> r.Some? && d !in old(h) && h == old(h)[r.value := d] && list == old(list) + [r.value]
      ensures isNew ==> UsedBefore(old(h), d, r.value, nb, per)
      ensures !isNew ==> h == old(h) && list == old(list) && (r.Some? <==> !IsZero(d) && d in h)
      ensures r.None? ==> IsZero(d) || BucketFull(h, d, nb, per)
    {
      hide Linked, Homed, Unique, Bucket, Base, BucketFull;
      if IsZero(d) { return None, false; }
      var base := Base(d, nb, per);
      BucketInside(d, nb, per);
      var empty: Option<nat> := None;
      for k := base to base + per
        invariant h == old(h) && list == old(list) && forall j :: base <= j < k ==> h[j] != d
        invariant empty.Some? ==> base <= empty.value < k && IsZero(h[empty.value]) && forall j :: base <= j < empty.value ==> !IsZero(h[j])
        invariant empty.None? ==> forall j :: base <= j < k ==> !IsZero(h[j])
      {
        if h[k] == d { return Some(k), false; }
        if empty.None? && IsZero(h[k]) { empty := Some(k); }
      }
      assert d !in h by { NotInBucket(h, d, nb, per); }
      if empty.None? {
        AllUsed(h, d, nb, per);
        return None, false;
      }
      var e := empty.value;
      InBucket(d, e, nb, per);
      FirstEmpty(h, d, e, nb, per);
      AddKeeps(h, e, d, nb, per);
      LinkSet(h, list, e, d);
      h, list := h[e := d], list + [e];
      return Some(e), true;
    }

    /** htable_clear: along the list, every digest is cleared. */
    method Clear()
      requires Valid()
      modifies this
      ensures Valid() && list == [] && forall i :: 0 <= i < |h| ==> IsZero(h[i])
    {
      for k := 0 to |list|
        invariant list == old(list) && |h| == nb * per && forall i :: 0 <= i < |h| ==> |h[i]| == hlen
        invariant forall i: nat :: i < |h| ==> IsZero(h[i]) || (h[i] == old(h)[i] && i !in list[..k])
      {
        assert list[..k + 1] == list[..k] + [list[k]];
        assert list[k] in old(list);
        h := h[list[k] := Zero(hlen)];
      }
      assert list[..|list|] == list;
      list := [];
    }

    /** htable_rm */
    method Rm(i: nat)
      requires Valid() && i in list
      modifies this
      ensures Valid() && h == old(h)[i := Zero(hlen)] && list == Remove(old(list), i)
    {
      LinkClear(h, list, i, Zero(hlen));
      list := Remove(list, i);
      h := h[i := Zero(hlen)];
    }

    /** shfs_btable_feed: slot i gets the digest read from the device. */
    method Feed(i: nat, d: Digest)
      requires Valid() && i < nb * per && |d| == hlen
      modifies this
      ensures Valid() && h == old(h)[i := d]
    {
      if !IsZero(h[i]) {
        LinkClear(h, list, i, Zero(hlen));
        list := Remove(list, i);
        h := h[i := Zero(hlen)];
      }
      if !IsZero(d) {
        LinkSet(h, list, i, d);
        list := list + [i];
      } else {
        LinkClear(h, list, i, d);
        RemoveAbsent(list, i);
      }
      h := h[i := d];
      assert h == old(h)[i := d];
    }
  }

  lemma {:induction false} RemoveAbsent(s: seq<nat>, x: nat)
    requires x !in s
    ensures Remove(s, x) == s
  {
    RemoveLast(s, x);
  }

  lemma NotInBucket(h: seq<Digest>, d: Digest, nb: nat, per: nat)
    requires Homed(h, nb, per) && !IsZero(d)
    requires forall j :: Base(d, nb, per) <= j < Base(d, nb, per) + per && j < |h| ==> h[j] != d
    ensures d !in h
  {
    forall k | 0 <= k < |h| ensures h[k] != d {
      if h[k] == d { HomeSlot(k, Bucket(d, nb), per); }
    }
  }

  /** Storing a new digest in its bucket keeps the table homed; it keeps the digests unique exactly when
      the digest was not stored before (htable_add does not look). */
  lemma AddKeeps(h: seq<Digest>, i: nat, d: Digest, nb: nat, per: nat)
    requires Homed(h, nb, per) && Unique(h) && i < |h| && IsZero(h[i]) && !IsZero(d) && i / per == Bucket(d, nb)
    ensures Homed(h[i := d], nb, per)
    ensures Unique(h[i := d]) <==> d !in h
  {
    var h' := h[i := d];
    if d in h {
      var k :| 0 <= k < |h| && h[k] == d;
      assert h'[k] == h'[i] && k != i;
    }
  }

  /** A digest added twice to a table with room for it is stored twice. */
  method StoredTwice() returns (t: HTable)
    ensures fresh(t) && t.Valid() && !Unique(t.h)
  {
    t := new HTable(1, 2, 1);
    var d: Digest := [1];
    EmptySlot(t.h, d);
    var a := t.Add(d);
    assert t.h == [d, Zero(1)];
    EmptySlot(t.h, d);
    var b := t.Add(d);
    assert a != b && t.h[a.value] == t.h[b.value] == d;
  }

  lemma EmptySlot(h: seq<Digest>, d: Digest)
    requires |h| == 2 && (IsZero(h[0]) || IsZero(h[1]))
    ensures !BucketFull(h, d, 1, 2)
  {
    assert 0 / 2 == Bucket(d, 1) && 1 / 2 == Bucket(d, 1);
  }
}
