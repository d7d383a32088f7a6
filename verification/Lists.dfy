/** Facts about duplicate-free sequences, the value that every doubly linked list of the
    program stands for. */
module Lists {

  datatype Option<+T> = None | Some(value: T)

  /** A byte of a buffer, a device or the wire. */
  type Byte = b: int | 0 <= b < 256

  ghost predicate NoDup<T>(s: seq<T>) {
    forall i, j :: 0 <= i < j < |s| ==> s[i] != s[j]
  }

  /** The list without the first occurrence of x. */
  function Remove<T(==)>(s: seq<T>, x: T): (r: seq<T>)
    ensures forall i :: 0 <= i < |r| ==> r[i] in s
  {
    if s == [] then []
    else if s[0] == x then s[1..]
    else [s[0]] + Remove(s[1..], x)
  }

  lemma {:induction false} RemoveNoDup<T>(s: seq<T>, x: T)
    requires NoDup(s)
    ensures NoDup(Remove(s, x))
    ensures forall y :: y in Remove(s, x) <==> y in s && y != x
    ensures |Remove(s, x)| == if x in s then |s| - 1 else |s|
  {
    if s != [] {
      if s[0] == x {
        assert forall y :: y in s <==> y == s[0] || y in s[1..];
      } else {
        RemoveNoDup(s[1..], x);
        assert forall y :: y in s <==> y == s[0] || y in s[1..];
        NoDupAppend(Remove(s[1..], x), s[0]);
      }
    }
  }

  /** Removing the element at a known position splices the two sides together. */
  lemma {:induction false} RemoveAt<T>(s: seq<T>, k: nat)
    requires k < |s| && NoDup(s)
    ensures Remove(s, s[k]) == s[..k] + s[k + 1..]
  {
    if k != 0 {
      NoDupHead(s);
      assert s[0] != s[k];
      hide NoDup;
      var t := s[1..];
      RemoveAt(t, k - 1);
      assert t[k - 1] == s[k] && t[..k - 1] == s[1..k] && t[k..] == s[k + 1..];
      assert [s[0]] + (t[..k - 1] + t[k..]) == s[..k] + s[k + 1..];
    }
  }

  lemma NoDupAppend<T>(s: seq<T>, x: T)
    requires NoDup(s) && x !in s
    ensures NoDup(s + [x]) && NoDup([x] + s)
    ensures forall y :: (y in s + [x] <==> y in s || y == x) && (y in [x] + s <==> y in s || y == x)
  {
  }

  /** Appending and then removing the same new element changes nothing. */
  lemma {:induction false} RemoveLast<T>(s: seq<T>, x: T)
    requires x !in s
    ensures Remove(s + [x], x) == s && Remove(s, x) == s
  {
    if s != [] {
      RemoveLast(s[1..], x);
      assert (s + [x])[1..] == s[1..] + [x];
    }
  }

  lemma NoDupHead<T>(s: seq<T>)
    requires NoDup(s) && s != []
    ensures s[0] !in s[1..] && NoDup(s[1..])
    ensures forall y :: y in s <==> y == s[0] || y in s[1..]
  {
    assert s == [s[0]] + s[1..];
  }

  /** A duplicate-free list is a set. */
  lemma {:induction false} NoDupMultiset<T>(s: seq<T>)
    requires NoDup(s)
    ensures multiset(s) == multiset(set x | x in s)
    ensures |s| == |set x | x in s|
  {
    if s != [] {
      NoDupMultiset(s[1..]);
      assert s == [s[0]] + s[1..];
      assert (set x | x in s) == {s[0]} + (set x | x in s[1..]);
    }
  }
}
