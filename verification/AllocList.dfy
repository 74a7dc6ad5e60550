/** The allocator's list of containers, as the tools link it. */
module AllocList {
  import opened AllocSpec

  class Entry {
    var start: nat
    var end: nat
    var next: Entry?
    var prev: Entry?

    constructor (start: nat, end: nat)
      ensures this.start == start && this.end == end
    {
      this.start, this.end, next, prev := start, end, null, null;
    }
  }

  /** The entry at position `i`; there is none beyond the ends. */
  ghost function At(es: seq<Entry>, i: int): Entry? {
    if 0 <= i < |es| then es[i] else null
  }

  ghost predicate Distinct(es: seq<Entry>) {
    forall i, j :: 0 <= i < j < |es| ==> es[i] != es[j]
  }

  /** The first position whose entry starts after `start` is the one that `Before` counts. */
  lemma {:induction false} BeforeIs(s: seq<Interval>, start: nat, k: nat)
    requires k <= |s| && (forall i :: 0 <= i < k ==> s[i].start <= start)
    requires k < |s| ==> start < s[k].start
    ensures Before(s, start) == k
  {
    if k > 0 {
      forall i | 0 <= i < k - 1 ensures s[1..][i].start <= start { assert s[1..][i] == s[i + 1]; }
      BeforeIs(s[1..], start, k - 1);
    }
  }

  lemma {:induction false} PositionIs(s: seq<Interval>, e: Interval, k: nat)
    requires k <= |s| && (k < |s| ==> s[k] == e) && forall i :: 0 <= i < k ==> s[i] != e
    ensures Position(s, e) == k
  {
    if k > 0 {
      forall i | 0 <= i < k - 1 ensures s[1..][i] != e { assert s[1..][i] == s[i + 1]; }
      PositionIs(s[1..], e, k - 1);
    }
  }

  lemma InsertedIs(v: seq<Interval>, s: seq<Interval>, k: nat, x: Interval)
    requires |v| == |s| + 1 && k <= |s|
    requires forall i {:trigger v[i]} :: 0 <= i < |v| ==> v[i] == if i < k then s[i] else if i == k then x else s[i - 1]
    ensures v == s[..k] + [x] + s[k..]
  {
    assert v[..k] == s[..k];
    assert v[k] == x;
    forall i | 0 <= i < |s| - k
      ensures v[k + 1..][i] == s[k..][i]
    {
      assert v[k + 1 + i] == s[k + i];
    }
    assert v[k + 1..] == s[k..];
    assert v == v[..k] + [v[k]] + v[k + 1..];
  }

  lemma RegisterAt(s: seq<Interval>, start: nat, len: nat)
    ensures var k := Before(s, start); Register(s, start, len) == s[..k] + [Interval(start, start + len)] + s[k..]
  {}

  lemma Members(was: seq<Entry>, k: nat, e: Entry)
    requires k <= |was|
    ensures forall x :: x in was[..k] + [e] + was[k..] ==> x in was || x == e
  {}

  class AList {
    var head: Entry?
    var tail: Entry?
    var count: nat
    const end: nat
    /** The entries from head to tail. */
    ghost var spine: seq<Entry>

    ghost predicate Valid()
      reads this, spine
    {
      && Distinct(spine)
      && head == At(spine, 0) && tail == At(spine, |spine| - 1) && count == |spine|
      && (forall i {:trigger spine[i].prev} :: 0 <= i < |spine| ==> spine[i].prev == At(spine, i - 1))
      && (forall i {:trigger spine[i].next} :: 0 <= i < |spine| ==> spine[i].next == At(spine, i + 1))
    }

    /** The areas on the list, in order. */
    ghost function View(): (s: seq<Interval>)
      reads this, spine
      ensures |s| == |spine|
      ensures forall i {:trigger s[i]} :: 0 <= i < |s| ==> s[i] == Interval(spine[i].start, spine[i].end)
    {
      seq(|spine|, i requires 0 <= i < |spine| reads this, spine => Interval(spine[i].start, spine[i].end))
    }

    /** `shfs_alloc_alist`. */
    constructor (end: nat)
      ensures Valid() && View() == [] && this.end == end
    {
      head, tail, count, this.end, spine := null, null, 0, end, [];
    }

    /** A new entry that is linked in before position `k` makes the list longer. */
    lemma Inserted(was: seq<Entry>, k: nat, e: Entry)
      requires k <= |was| && Distinct(was) && e !in was && spine == was[..k] + [e] + was[k..]
      requires count == |was| + 1
      requires head == (if k == 0 then e else At(was, 0))
      requires tail == (if k == |was| then e else At(was, |was| - 1))
      requires e.prev == At(was, k - 1) && e.next == At(was, k)
      requires forall j {:trigger was[j].prev} :: 0 <= j < |was| ==>
        was[j].prev == if j == k then e else At(was, j - 1)
      requires forall j {:trigger was[j].next} :: 0 <= j < |was| ==>
        was[j].next == if j == k - 1 then e else At(was, j + 1)
      ensures Valid()
    {
      forall i | 0 <= i < |spine|
        ensures spine[i].prev == At(spine, i - 1) && spine[i].next == At(spine, i + 1)
      {
        if i != k {
          var j := if i < k then i else i - 1;
          assert spine[i] == was[j];
          assert was[j].prev == if j == k then e else At(was, j - 1);
          assert was[j].next == if j == k - 1 then e else At(was, j + 1);
        }
      }
    }

    /** An entry whose neighbours were linked to each other is out of the list. */
    lemma Bypassed(was: seq<Entry>, k: nat)
      requires k < |was| && Distinct(was) && spine == was[..k] + was[k + 1..]
      requires count == |was| - 1
      requires head == if k == 0 then At(was, 1) else At(was, 0)
      requires tail == if k == |was| - 1 then At(was, k - 1) else At(was, |was| - 1)
      requires forall j {:trigger was[j].prev} :: 0 <= j < |was| && j != k ==>
        was[j].prev == if j == k + 1 then At(was, k - 1) else At(was, j - 1)
      requires forall j {:trigger was[j].next} :: 0 <= j < |was| && j != k ==>
        was[j].next == if j == k - 1 then At(was, k + 1) else At(was, j + 1)
      ensures Valid()
    {
      forall i | 0 <= i < |spine|
        ensures spine[i].prev == At(spine, i - 1) && spine[i].next == At(spine, i + 1)
      {
        var j := if i < k then i else i + 1;
        assert spine[i] == was[j];
        assert was[j].prev == if j == k + 1 then At(was, k - 1) else At(was, j - 1);
        assert was[j].next == if j == k - 1 then At(was, k + 1) else At(was, j + 1);
      }
    }

    /** The place for an area that starts at `start`: behind all entries that do not start
        after it. */
    method FindPlace(start: nat) returns (prev: Entry?, next: Entry?, ghost k: nat)
      requires Valid()
      ensures k == Before(View(), start) <= |spine|
      ensures prev == At(spine, k - 1) && next == At(spine, k)
    {
      prev, next := null, null;
      var e := head;
      k := 0;
      while e != null
        invariant k <= |spine| && e == At(spine, k) && prev == At(spine, k - 1) && next == null
        invariant forall i :: 0 <= i < k ==> View()[i].start <= start
        decreases |spine| - k
      {
        if e.start <= start {
          prev := e;
          e := e.next;
          k := k + 1;
        } else {
          next := e;
          break;
        }
      }
      BeforeIs(View(), start, k);
    }

    /** Links `e` in between its neighbours. */
    method Link(e: Entry, prev: Entry?, next: Entry?, ghost k: nat)
      requires Valid() && k <= |spine| && e !in spine
      requires prev == At(spine, k - 1) && next == At(spine, k)
      modifies this`head, this`tail, this`count, this`spine, e`prev, e`next, spine`prev, spine`next
      ensures Valid() && spine == old(spine[..k]) + [e] + old(spine[k..])
    {
      ghost var was := spine;
      e.prev, e.next := prev, next;
      if prev != null { prev.next := e; } else { head := e; }
      if next != null { next.prev := e; } else { tail := e; }
      count := count + 1;
      spine := was[..k] + [e] + was[k..];
      Inserted(was, k, e);
    }

    /** Links the neighbours of `e` to each other. */
    method Unlink(e: Entry, ghost k: nat)
      requires Valid() && k < |spine| && spine[k] == e
      modifies this`head, this`tail, this`count, this`spine, spine`prev, spine`next
      ensures Valid() && spine == old(spine[..k] + spine[k + 1..])
    {
      ghost var was := spine;
      assert e.prev == At(was, k - 1) && e.next == At(was, k + 1);
      if e.prev != null { e.prev.next := e.next; } else { head := e.next; }
      if e.next != null { e.next.prev := e.prev; } else { tail := e.prev; }
      count := count - 1;
      spine := was[..k] + was[k + 1..];
      Bypassed(was, k);
    }

    /** The areas on the list after an entry was linked in. */
    lemma NewView(s: seq<Interval>, was: seq<Entry>, k: nat, e: Entry)
      requires k <= |was| == |s| && spine == was[..k] + [e] + was[k..]
      requires forall i {:trigger s[i]} :: 0 <= i < |s| ==> s[i] == Interval(was[i].start, was[i].end)
      ensures View() == s[..k] + [Interval(e.start, e.end)] + s[k..]
    {
      var x := Interval(e.start, e.end);
      forall i | 0 <= i < |View()| ensures View()[i] == if i < k then s[i] else if i == k then x else s[i - 1] {
        assert spine[i] == if i < k then was[i] else if i == k then e else was[i - 1];
      }
      InsertedIs(View(), s, k, x);
    }

    /** `shfs_alist_register`: fails only without memory. */
    method Add(start: nat, len: nat, memory: bool) returns (ok: bool)
      requires Valid()
      modifies this, spine
      ensures Valid() && ok == memory && View() == if ok then Register(old(View()), start, len) else old(View())
      ensures forall i {:trigger spine[i]} :: 0 <= i < |spine| ==> spine[i] in old(spine) || fresh(spine[i])
    {
      hide Before, Distinct, Register, Valid, View, At;
      if !memory { return false; }
      var e := new Entry(start, start + len);
      ghost var s, was := View(), spine;
      var prev, next;
      ghost var k;
      prev, next, k := FindPlace(start);
      Link(e, prev, next, k);
      NewView(s, was, k, e);
      RegisterAt(s, start, len);
      Members(was, k, e);
      ok := true;
    }

    /** The first entry for an area. */
    method Find(area: Interval) returns (r: Entry?, ghost k: nat)
      requires Valid()
      ensures k == Position(View(), area) && r == At(spine, k)
    {
      r := head;
      k := 0;
      while r != null
        invariant k <= |spine| && r == At(spine, k)
        invariant forall i :: 0 <= i < k ==> View()[i] != area
        decreases |spine| - k
      {
        assert View()[k] == Interval(r.start, r.end);
        if r.start == area.start && r.end == area.end { break; }
        r := r.next;
        k := k + 1;
      }
      PositionIs(View(), area, k);
    }

    /** `shfs_alist_unregister`: takes out the first entry for the area, if there is one. */
    method Remove(start: nat, len: nat) returns (found: bool)
      requires Valid()
      modifies this, spine
      ensures Valid() && View() == Unregister(old(View()), start, len)
      ensures found <==> Interval(start, start + len) in old(View())
      ensures forall i {:trigger spine[i]} :: 0 <= i < |spine| ==> spine[i] in old(spine)
    {
      hide Valid, View;
      ghost var s, was := View(), spine;
      var e;
      ghost var k;
      e, k := Find(Interval(start, start + len));
      found := e != null;
      if e != null {
        Unlink(e, k);
        forall i | 0 <= i < |was| - 1
          ensures View()[i] == Unregister(s, start, len)[i]
        {
          assert spine[i] == was[if i < k then i else i + 1];
        }
      }
    }

    /** `_shfs_alist_find_ff`. On a list without hidden gaps the result is right. */
    method FindFree(len: nat) returns (r: nat)
      requires Valid() && end < WORD
      ensures r == FirstFit(View(), 0, end, len)
      ensures Area(View(), end) && NoneHidden(View()) ==> Right(View(), end, len, r)
    {
      hide Overlap, Sub;
      hide View;
      ghost var s := View();
      if Area(s, end) && NoneHidden(s) { FirstFitRight(s, 0, end, len); }
      var e := head;
      ghost var i: nat := 0;
      while e != null
        invariant i <= |spine| && e == At(spine, i)
        invariant FirstFit(s, 0, end, len) == FirstFit(s, i, end, len)
        decreases |spine| - i
      {
        var freeStart: nat := e.end;
        ghost var j := i;
        while e.next != null && e.next.start <= e.end
          invariant i <= j < |spine| && e == spine[j]
          invariant Merge(s, i, s[i].end) == Merge(s, j, freeStart)
          decreases |spine| - j
        {
          assert e.next == At(spine, j + 1);
          if freeStart < e.next.end { freeStart := e.next.end; }
          e := e.next;
          j := j + 1;
        }
        assert e.next == At(spine, j + 1);
        var freeEnd := end;
        if e.next != null {
          freeEnd := e.next.start;
        } else if freeEnd == freeStart {
          break;
        }
        if len <= Sub(freeEnd, freeStart) { return freeStart; }
        e := e.next;
        i := j + 1;
      }
      r := 0;
    }
  }
}
