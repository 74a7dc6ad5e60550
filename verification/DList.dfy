/** The intrusive doubly linked list: the pointer operations, and the list they stand for. */
module DList {

  /** The links of an element. The element itself is its owner. */
  class Element {
    var next: Element?
    var prev: Element?

    constructor ()
      ensures next == null && prev == null
    {
      next, prev := null, null;
    }
  }

  /** The element at position `i` of a list; there is none beyond the ends. */
  ghost function At(els: seq<Element>, i: int): Element? {
    if 0 <= i < |els| then els[i] else null
  }

  ghost predicate Distinct(els: seq<Element>) {
    forall i, j :: 0 <= i < j < |els| ==> els[i] != els[j]
  }

  /** When the neighbours of element `k` were linked to each other, and to the ends, the
      rest is a list. */
  lemma Bypassed(h: Head, was: seq<Element>, k: nat)
    requires k < |was| && Distinct(was) && h.els == was[..k] + was[k + 1..]
    requires h.first == if k == 0 then At(was, 1) else At(was, 0)
    requires h.last == if k == |was| - 1 then At(was, k - 1) else At(was, |was| - 1)
    requires forall j {:trigger was[j].prev} :: 0 <= j < |was| && j != k ==>
      was[j].prev == if j == k + 1 then At(was, k - 1) else At(was, j - 1)
    requires forall j {:trigger was[j].next} :: 0 <= j < |was| && j != k ==>
      was[j].next == if j == k - 1 then At(was, k + 1) else At(was, j + 1)
    ensures h.Valid()
  {
    forall i | 0 <= i < |h.els|
      ensures h.els[i].prev == At(h.els, i - 1) && h.els[i].next == At(h.els, i + 1)
    {
      var j := if i < k then i else i + 1;
      assert h.els[i] == was[j];
      assert was[j].prev == if j == k + 1 then At(was, k - 1) else At(was, j - 1);
      assert was[j].next == if j == k - 1 then At(was, k + 1) else At(was, j + 1);
    }
  }

  class Head {
    var first: Element?
    var last: Element?
    /** The elements from first to last. */
    ghost var els: seq<Element>

    /** The links say what the list is: neighbours point to each other, and the ends are
        the ends. */
    ghost predicate Valid()
      reads this, els
    {
      && Distinct(els)
      && first == At(els, 0)
      && last == At(els, |els| - 1)
      && (forall i {:trigger els[i].prev} :: 0 <= i < |els| ==> els[i].prev == At(els, i - 1))
      && (forall i {:trigger els[i].next} :: 0 <= i < |els| ==> els[i].next == At(els, i + 1))
    }

    constructor ()
      ensures Valid() && els == []
    {
      first, last, els := null, null, [];
    }

    /** `dlist_append`. */
    method Append(el: Element)
      requires Valid() && el !in els
      modifies this, els, el
      ensures Valid() && els == old(els) + [el]
    {
      if first == null {
        first := el;
        el.prev := null;
      } else {
        last.next := el;
        el.prev := last;
      }
      el.next := null;
      last := el;
      els := els + [el];
    }

    /** `dlist_prepend`. */
    method Prepend(el: Element)
      requires Valid() && el !in els
      modifies this, els, el
      ensures Valid() && els == [el] + old(els)
    {
      if first == null {
        last := el;
        el.next := null;
      } else {
        first.prev := el;
        el.next := first;
      }
      el.prev := null;
      first := el;
      els := [el] + els;
    }

    /** `dlist_unlink`. The element at position `k` is taken out of the list. An element that
        is linked nowhere resets the list instead: the elements stay linked to each other
        but can no longer be reached from the head. */
    method Unlink(el: Element, ghost k: nat)
      requires Valid()
      requires if el in els then k < |els| && els[k] == el else el.next == null && el.prev == null
      modifies this, els, el
      ensures Valid() && els == if el in old(els) then old(els[..k] + els[k + 1..]) else []
      ensures el.next == null && el.prev == null
    {
      ghost var was := els;
      assert el in els ==> el.prev == At(els, k - 1) && el.next == At(els, k + 1);
      if el.prev != null { el.prev.next := el.next; } else { first := el.next; }
      if el.next != null { el.next.prev := el.prev; } else { last := el.prev; }
      el.next, el.prev := null, null;
      els := if el in was then was[..k] + was[k + 1..] else [];
      if el in was { Bypassed(this, was, k); }
    }

    /** `dlist_relink_tail`. */
    method RelinkTail(el: Element, ghost k: nat)
      requires Valid() && k < |els| && els[k] == el
      modifies this, els
      ensures Valid() && els == old(els[..k] + els[k + 1..]) + [el]
    {
      Unlink(el, k);
      assert el !in els;
      Append(el);
    }

    /** `dlist_foreach`: walks the list and finds an element. */
    method Find(el: Element) returns (found: bool)
      requires Valid()
      ensures found <==> el in els
    {
      var cur := first;
      ghost var i := 0;
      while cur != null
        invariant 0 <= i <= |els|
        invariant cur == At(els, i)
        invariant el !in els[..i]
        decreases |els| - i
      {
        if cur == el { return true; }
        cur := cur.next;
        i := i + 1;
      }
      found := false;
    }
  }
}
