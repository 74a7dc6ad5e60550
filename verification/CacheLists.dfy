/** The lists of the chunk cache as the pointer code keeps them: every buffer of the pool owns an
    element, and a linked list of elements stands for a list of buffer numbers. */
module CacheLists {
  import opened Seqs
  import CacheSpec
  import opened DList

  /** The elements are those of the buffers `l`, in this order. */
  ghost predicate Stands(els: seq<Element>, pool: seq<Element>, l: seq<nat>) {
    |els| == |l| && forall k :: 0 <= k < |l| ==> l[k] < |pool| && els[k] == pool[l[k]]
  }

  /** An element is on the list exactly if its buffer is. */
  lemma Member(els: seq<Element>, pool: seq<Element>, l: seq<nat>, i: nat)
    requires Stands(els, pool, l) && Distinct(pool) && i < |pool|
    ensures pool[i] in els <==> i in l
  {
    if pool[i] in els {
      var k :| 0 <= k < |els| && els[k] == pool[i];
      assert l[k] == i;
    }
    if i in l {
      var k :| 0 <= k < |l| && l[k] == i;
      assert els[k] == pool[i];
    }
  }

  lemma NoDoubles(els: seq<Element>, pool: seq<Element>, l: seq<nat>)
    requires Stands(els, pool, l) && Distinct(els)
    ensures NoDup(l)
  {
    forall i, j | 0 <= i < j < |l| ensures l[i] != l[j] {
      assert els[i] != els[j];
    }
  }

  /** Taking out the place of a number is removing the number. */
  lemma {:induction false} RemoveAt(l: seq<nat>, k: nat)
    requires NoDup(l) && k < |l|
    ensures Remove(l, l[k]) == l[..k] + l[k + 1..]
  {
    var n := |l| - 1;
    assert l == l[..n] + [l[n]];
    if k < n {
      RemoveAt(l[..n], k);
      assert l[..n][..k] == l[..k] && l[..n][k + 1..] + [l[n]] == l[k + 1..];
    } else {
      assert l[n] !in l[..n];
    }
  }

  lemma StandsWithout(els: seq<Element>, pool: seq<Element>, l: seq<nat>, k: nat)
    requires Stands(els, pool, l) && k < |l|
    ensures k < |els| && l[k] < |pool| && els[k] == pool[l[k]]
    ensures Stands(els[..k] + els[k + 1..], pool, l[..k] + l[k + 1..])
  {
    var e1, l1 := els[..k] + els[k + 1..], l[..k] + l[k + 1..];
    forall j | 0 <= j < |l1| ensures l1[j] < |pool| && e1[j] == pool[l1[j]] {
      var i := if j < k then j else j + 1;
      assert l1[j] == l[i] && e1[j] == els[i];
    }
  }

  /** Where the element of buffer `i` is, and what is left without it. */
  lemma Place(els: seq<Element>, pool: seq<Element>, l: seq<nat>, i: nat) returns (k: nat)
    requires Stands(els, pool, l) && Distinct(pool) && Distinct(els) && i < |pool|
    ensures pool[i] in els <==> i in l
    ensures i in l ==> k < |els| && els[k] == pool[i] && Stands(els[..k] + els[k + 1..], pool, Remove(l, i))
  {
    hide Stands, Distinct, NoDup, Remove;
    Member(els, pool, l, i);
    NoDoubles(els, pool, l);
    if i in l {
      k :| 0 <= k < |l| && l[k] == i;
      RemoveAt(l, k);
      StandsWithout(els, pool, l, k);
    } else {
      k := 0;
    }
  }

  lemma StandsMore(els: seq<Element>, pool: seq<Element>, l: seq<nat>, i: nat)
    requires Stands(els, pool, l) && i < |pool|
    ensures Stands(els + [pool[i]], pool, l + [i])
  {}

  lemma StandsNone(pool: seq<Element>)
    ensures Stands([], pool, [])
  {}

  /** `dlist_append` of the element of buffer `i`. */
  method Append(h: Head, pool: seq<Element>, ghost l: seq<nat>, i: nat)
    requires h.Valid() && Distinct(pool) && Stands(h.els, pool, l) && i < |pool| && i !in l
    modifies h, h.els, pool[i]
    ensures h.Valid() && Stands(h.els, pool, l + [i])
  {
    hide Stands, At;
    Member(h.els, pool, l, i);
    StandsMore(h.els, pool, l, i);
    h.Append(pool[i]);
  }

  /** `dlist_unlink` of the element of buffer `i`, also if it is linked nowhere. */
  method Unlink(h: Head, pool: seq<Element>, ghost l: seq<nat>, i: nat)
    requires h.Valid() && Distinct(pool) && Stands(h.els, pool, l) && i < |pool|
    requires i !in l ==> pool[i].next == null && pool[i].prev == null
    modifies h, h.els, pool[i]
    ensures h.Valid() && Stands(h.els, pool, CacheSpec.Unlink(l, i))
    ensures pool[i].next == null && pool[i].prev == null
  {
    hide Stands, At, Remove;
    ghost var k := Place(h.els, pool, l, i);
    StandsNone(pool);
    h.Unlink(pool[i], k);
  }

  /** `dlist_relink_tail` of the element of buffer `i`. */
  method RelinkTail(h: Head, pool: seq<Element>, ghost l: seq<nat>, i: nat)
    requires h.Valid() && Distinct(pool) && Stands(h.els, pool, l) && i in l && i < |pool|
    modifies h, h.els, pool[i]
    ensures h.Valid() && Stands(h.els, pool, Remove(l, i) + [i])
  {
    hide Stands, At, Remove;
    ghost var k := Place(h.els, pool, l, i);
    StandsMore(h.els[..k] + h.els[k + 1..], pool, Remove(l, i), i);
    h.RelinkTail(pool[i], k);
  }
}
