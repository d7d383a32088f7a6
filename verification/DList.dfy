/** The doubly linked lists of dlist.h: the pointer updates of the macros, proved to be the
    operations on the sequence of elements that the other modules use.  The same pointer code
    appears by hand in the AIO chain of shfs_cache.c, the element list of htable.h and the region
    list of shfs_alloc.c.  The link fields of the elements are maps from element to element. */
module DList {
  import opened Lists

  /** The element at a position, none outside the list. */
  function At<T>(els: seq<T>, i: int): Option<T> {
    if 0 <= i < |els| then Some(els[i]) else None
  }

  /** The link field of element i leads to the element at distance d. */
  ghost predicate Link<T>(els: seq<T>, f: map<T, Option<T>>, d: int, i: nat)
    requires i < |els|
  {
    els[i] in f && f[els[i]] == At(els, i + d)
  }

  ghost predicate Links<T>(els: seq<T>, f: map<T, Option<T>>, d: int) {
    forall i {:trigger Link(els, f, d, i)} :: 0 <= i < |els| ==> Link(els, f, d, i)
  }

  /** Writing the link fields of one element and, if it exists, of one more. */
  function Set<T>(f: map<T, Option<T>>, at: Option<T>, v: Option<T>): map<T, Option<T>> {
    if at.Some? then f[at.value := v] else f
  }

  /** Taking out element k: its neighbour on the side the links come from is redirected past it. */
  lemma UnlinkLinks<T>(els: seq<T>, f: map<T, Option<T>>, d: int, k: nat)
    requires NoDup(els) && k < |els| && Links(els, f, d) && (d == 1 || d == -1)
    ensures Links(els[..k] + els[k + 1..], Set(f, At(els, k - d), At(els, k + d))[els[k] := None], d)
  {
    var els', f' := els[..k] + els[k + 1..], Set(f, At(els, k - d), At(els, k + d))[els[k] := None];
    forall i | 0 <= i < |els'| ensures Link(els', f', d, i) {
      var j := if i < k then i else i + 1;
      assert Link(els, f, d, j);
      AtSplice(els, k, i);
      AtSplice(els, k, i + d);
    }
  }

  lemma AtSplice<T>(els: seq<T>, k: nat, i: int)
    requires k < |els|
    ensures At(els[..k] + els[k + 1..], i) == At(els, if i < k then i else i + 1)
  {
  }

  /** A new element at the end the links lead to: the old end is redirected to it. */
  lemma AppendLinks<T>(els: seq<T>, f: map<T, Option<T>>, el: T)
    requires NoDup(els) && el !in els
    ensures Links(els, f, 1) ==> Links(els + [el], Set(f, At(els, |els| - 1), Some(el))[el := None], 1)
    ensures Links(els, f, -1) ==> Links(els + [el], f[el := At(els, |els| - 1)], -1)
  {
    if Links(els, f, 1) {
      var f' := Set(f, At(els, |els| - 1), Some(el))[el := None];
      forall i | 0 <= i < |els| + 1 ensures Link(els + [el], f', 1, i) { assert i < |els| ==> Link(els, f, 1, i); }
    }
    if Links(els, f, -1) {
      var f' := f[el := At(els, |els| - 1)];
      forall i | 0 <= i < |els| + 1 ensures Link(els + [el], f', -1, i) { assert i < |els| ==> Link(els, f, -1, i); }
    }
  }

  lemma PrependLinks<T>(els: seq<T>, f: map<T, Option<T>>, el: T)
    requires NoDup(els) && el !in els
    ensures Links(els, f, -1) ==> Links([el] + els, Set(f, At(els, 0), Some(el))[el := None], -1)
    ensures Links(els, f, 1) ==> Links([el] + els, f[el := At(els, 0)], 1)
  {
    if Links(els, f, -1) {
      var f' := Set(f, At(els, 0), Some(el))[el := None];
      forall i | 0 <= i < |els| + 1 ensures Link([el] + els, f', -1, i) { assert i > 0 ==> Link(els, f, -1, i - 1); }
    }
    if Links(els, f, 1) {
      var f' := f[el := At(els, 0)];
      forall i | 0 <= i < |els| + 1 ensures Link([el] + els, f', 1, i) { assert i > 0 ==> Link(els, f, 1, i - 1); }
    }
  }

  /** The pointers of a list with these elements. */
  ghost predicate Ok<T>(els: seq<T>, first: Option<T>, last: Option<T>, next: map<T, Option<T>>, prev: map<T, Option<T>>) {
    NoDup(els) && first == At(els, 0) && last == At(els, |els| - 1) && Links(els, next, 1) && Links(els, prev, -1)
  }

  lemma Neighbours<T>(els: seq<T>, first: Option<T>, last: Option<T>, next: map<T, Option<T>>, prev: map<T, Option<T>>, k: nat)
    requires Ok(els, first, last, next, prev) && k < |els|
    ensures els[k] in next && next[els[k]] == At(els, k + 1) && els[k] in prev && prev[els[k]] == At(els, k - 1)
    ensures (k == 0 <==> prev[els[k]].None?) && (k == |els| - 1 <==> next[els[k]].None?)
    ensures (k == 0 ==> first == Some(els[k])) && (k == |els| - 1 ==> last == Some(els[k]))
  {
    assert Link(els, next, 1, k) && Link(els, prev, -1, k);
  }

  lemma UnlinkOk<T>(els: seq<T>, first: Option<T>, last: Option<T>, next: map<T, Option<T>>, prev: map<T, Option<T>>, k: nat)
    requires Ok(els, first, last, next, prev) && k < |els|
    ensures var (el, p, n) := (els[k], At(els, k - 1), At(els, k + 1));
      Ok(els[..k] + els[k + 1..], if k == 0 then n else first, if k == |els| - 1 then p else last,
         Set(next, p, n)[el := None], Set(prev, n, p)[el := None])
    ensures els[..k] + els[k + 1..] == Remove(els, els[k])
  {
    hide Links, NoDup, Remove;
    UnlinkLinks(els, next, 1, k);
    UnlinkLinks(els, prev, -1, k);
    RemoveAt(els, k);
    assert NoDup(Remove(els, els[k])) by { RemoveNoDup(els, els[k]); }
    AtSplice(els, k, 0);
    AtSplice(els, k, |els| - 2);
  }

  class DList<T(==)> {
    var first: Option<T>
    var last: Option<T>
    var next: map<T, Option<T>>
    var prev: map<T, Option<T>>
    ghost var els: seq<T>

    constructor ()
      ensures Valid() && els == []
    {
      first, last, next, prev, els := None, None, map[], map[], [];
    }

    ghost predicate Valid()
      reads this
    {
      Ok(els, first, last, next, prev)
    }

    /** dlist_append */
    method Append(el: T)
      requires Valid() && el !in els
      modifies this
      ensures Valid() && els == old(els) + [el]
    {
      NoDupAppend(els, el);
      AppendLinks(els, next, el);
      AppendLinks(els, prev, el);
      if first.None? {
        first := Some(el);
        prev := prev[el := None];
      } else {
        next := next[last.value := Some(el)];
        prev := prev[el := last];
      }
      next := next[el := None];
      last := Some(el);
      els := els + [el];
    }

    /** dlist_prepend */
    method Prepend(el: T)
      requires Valid() && el !in els
      modifies this
      ensures Valid() && els == [el] + old(els)
    {
      NoDupAppend(els, el);
      PrependLinks(els, next, el);
      PrependLinks(els, prev, el);
      if first.None? {
        last := Some(el);
        next := next[el := None];
      } else {
        prev := prev[first.value := Some(el)];
        next := next[el := first];
      }
      prev := prev[el := None];
      first := Some(el);
      els := [el] + els;
    }

    /** dlist_unlink; both BUG_ON checks hold for an element of this list. */
    method Unlink(el: T)
      requires Valid() && el in els
      modifies this
      ensures Valid() && els == Remove(old(els), el)
    {
      hide Ok, Remove;
      ghost var k :| 0 <= k < |els| && els[k] == el;
      Neighbours(els, first, last, next, prev, k);
      assert !(prev[el].None? && first != Some(el)) && !(next[el].None? && last != Some(el));
      UnlinkOk(els, first, last, next, prev, k);
      var p, n := prev[el], next[el];
      if p.Some? { next := next[p.value := n]; } else { first := n; }
      if n.Some? { prev := prev[n.value := p]; } else { last := p; }
      next, prev := next[el := None], prev[el := None];
      els := els[..k] + els[k + 1..];
    }

    /** dlist_relink_head */
    method RelinkHead(el: T)
      requires Valid() && el in els
      modifies this
      ensures Valid() && els == [el] + Remove(old(els), el)
    {
      RemoveNoDup(els, el);
      Unlink(el);
      Prepend(el);
    }

    /** dlist_relink_tail */
    method RelinkTail(el: T)
      requires Valid() && el in els
      modifies this
      ensures Valid() && els == Remove(old(els), el) + [el]
    {
      RemoveNoDup(els, el);
      Unlink(el);
      Append(el);
    }

    /** Emptying the list by its head alone: the elements keep their links. */
    method Reset()
      modifies this
      ensures Valid() && els == [] && next == old(next)
    {
      first, last, els := None, None, [];
    }

    /** The link that dlist_foreach follows. */
    lemma Follow(k: nat)
      requires Valid() && k < |els|
      ensures els[k] in next && next[els[k]] == At(els, k + 1)
    {
      assert Link(els, next, 1, k);
    }

    /** dlist_foreach: visits exactly the elements, in order, and ends. */
    method Foreach() returns (visited: seq<T>)
      requires Valid()
      ensures visited == els
    {
      visited := [];
      var el := first;
      while el.Some?
        invariant |visited| <= |els| && visited == els[..|visited|] && el == At(els, |visited|)
        decreases |els| - |visited|
      {
        assert Link(els, next, 1, |visited|);
        visited := visited + [el.value];
        el := next[el.value];
      }
    }
  }
}
