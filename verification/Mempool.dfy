/** The pool of equally sized objects: a ring of references to the free ones. */
module Mempool {
  import opened Types
  import opened Seqs
  import Bits
  import Ring

  /** Each of the `n` objects is free, in one place, or picked. */
  ghost predicate Split(n: nat, free: seq<nat>, picked: set<nat>) {
    && NoDup(free)
    && (forall i: nat :: i in free ==> i < n && i !in picked)
    && (forall i: nat :: i in picked ==> i < n)
    && (forall i: nat :: i < n && i !in picked ==> i in free)
  }

  lemma {:induction false} ElementsSize(s: seq<nat>) returns (e: set<nat>)
    requires NoDup(s)
    ensures |e| == |s| && forall i :: i in e <==> i in s
  {
    if s == [] {
      e := {};
    } else {
      var t, x := s[..|s| - 1], s[|s| - 1];
      assert NoDup(t);
      var f := ElementsSize(t);
      hide NoDup;
      assert s == t + [x];
      assert x !in f by { NotBefore(s); }
      e := f + {x};
    }
  }

  lemma NotBefore(s: seq<nat>)
    requires NoDup(s) && s != []
    ensures s[|s| - 1] !in s[..|s| - 1]
  {}

  lemma {:induction false} AllSize(n: nat) returns (e: set<nat>)
    ensures |e| == n && forall i: nat :: i in e <==> i < n
  {
    if n == 0 {
      e := {};
    } else {
      var f := AllSize(n - 1);
      e := f + {n - 1};
    }
  }

  /** Nothing gets lost: all objects are free exactly if none is picked. */
  lemma Conserved(n: nat, free: seq<nat>, picked: set<nat>)
    requires Split(n, free, picked)
    ensures |free| + |picked| == n
    ensures |free| == n <==> picked == {}
  {
    var all := AllSize(n);
    var e := ElementsSize(free);
    assert e !! picked && e + picked == all;
    assert |e + picked| == |e| + |picked|;
  }

  lemma SplitPick(n: nat, free: seq<nat>, picked: set<nat>, k: nat, more: set<nat>)
    requires Split(n, free, picked) && k <= |free| && forall i :: i in more <==> i in free[..k]
    ensures Split(n, free[k..], picked + more)
  {
    assert free == free[..k] + free[k..];
    assert forall i :: i in free <==> i in free[..k] || i in free[k..];
    forall i: nat | i in free[k..]
      ensures i !in free[..k]
    {
      var b :| k <= b < |free| && free[b] == i;
      assert forall a :: 0 <= a < k ==> free[a] != free[b];
    }
  }

  lemma SplitPut(n: nat, free: seq<nat>, picked: set<nat>, objs: seq<nat>, less: set<nat>)
    requires Split(n, free, picked) && NoDup(objs)
    requires less <= picked && forall i :: i in less <==> i in objs
    ensures Split(n, free + objs, picked - less)
  {
    forall a, b | 0 <= a < b < |free + objs|
      ensures (free + objs)[a] != (free + objs)[b]
    {
      if a < |free| <= b {
        assert free[a] in free && objs[b - |free|] in objs;
      }
    }
  }

  lemma PickedWasFree(n: nat, free: seq<nat>, picked: set<nat>)
    requires Split(n, free, picked) && free != []
    ensures free[0] !in picked
  {
    assert free[0] in free;
  }

  /** The ring of `1 << (log2(n) + 1)` slots holds `n` objects; the exponent is a 32-bit
      word, so it is 0 for the empty pool. */
  lemma RingFits(n: nat, l: nat)
    requires n < 0x8000_0000
    requires if n == 0 then l == 0xFFFF_FFFF else Bits.Pow2(l) <= n < Bits.Pow2(l + 1)
    ensures var size := Bits.Pow2((l + 1) % 0x1_0000_0000);
      n < size <= 0x8000_0000 && size <= (if n == 0 then 1 else 2 * n)
  {
    if 0 < n {
      Bits.Pow2Of31();
      if 31 <= l { Bits.Pow2Mono(31, l); }
      Bits.Pow2Mono(l + 1, 31);
    }
  }

  class Mempool {
    const nbObjs: nat
    const freeObjs: Ring.Ring
    /** The objects that were picked and not put back. */
    ghost var picked: set<nat>

    ghost predicate Valid()
      reads this, freeObjs, freeObjs.slots
    {
      && freeObjs.Valid() && nbObjs < freeObjs.size
      && Split(nbObjs, freeObjs.Contents(), picked)
    }

    /** The free objects, next one first. */
    ghost function Free(): seq<nat>
      requires Valid()
      reads this, freeObjs, freeObjs.slots
    {
      freeObjs.Contents()
    }

    /** The bookkeeping of `alloc_enhanced_mempool`: every object goes into the ring. */
    constructor (nbObjs: nat)
      requires nbObjs < 0x8000_0000
      ensures Valid() && fresh(freeObjs) && fresh(freeObjs.slots)
      ensures this.nbObjs == nbObjs && picked == {} && Free() == seq(nbObjs, i => i)
    {
      var l := Bits.Log2(nbObjs);
      RingFits(nbObjs, l);
      var order := (l + 1) % 0x1_0000_0000;
      var ring := new Ring.Ring(order, Bits.Pow2(order));
      for i := 0 to nbObjs
        invariant ring.Valid() && fresh(ring) && fresh(ring.slots) && nbObjs < ring.size
        invariant ring.Contents() == seq(i, k => k)
      {
        var ok := ring.Enqueue(i);
      }
      this.nbObjs, freeObjs, picked := nbObjs, ring, {};
      forall i: nat | i < nbObjs
        ensures i in ring.Contents()
      {
        assert ring.Contents()[i] == i;
      }
    }

    /** `mempool_pick`: the object that is free for longest, unless none is. */
    method Pick() returns (r: Option<nat>)
      requires Valid()
      modifies this, freeObjs
      ensures Valid()
      ensures old(Free()) == [] ==> r == None && Free() == [] && picked == old(picked)
      ensures old(Free()) != [] ==>
        && r == Some(old(Free())[0]) && r.value !in old(picked)
        && Free() == old(Free())[1..] && picked == old(picked) + {r.value}
    {
      hide Split;
      ghost var was := Free();
      r := freeObjs.Dequeue();
      if r.Some? {
        SplitPick(nbObjs, was, picked, 1, {r.value});
        PickedWasFree(nbObjs, was, picked);
        picked := picked + {r.value};
      }
    }

    /** `mempool_put`: an object that was picked goes back; there always is room for it. */
    method Put(obj: nat)
      requires Valid() && obj in picked
      modifies this, freeObjs, freeObjs.slots
      ensures Valid() && Free() == old(Free()) + [obj] && picked == old(picked) - {obj}
    {
      hide Split;
      Conserved(nbObjs, Free(), picked);
      assert |picked - {obj}| == |picked| - 1;
      SplitPut(nbObjs, Free(), picked, [obj], {obj});
      var ok := freeObjs.Enqueue(obj);
      picked := picked - {obj};
    }

    /** `mempool_pick_multiple`: `count` objects or none. */
    method PickMultiple(count: nat) returns (r: Option<seq<nat>>)
      requires Valid()
      modifies this, freeObjs
      ensures Valid()
      ensures |old(Free())| < count ==> r == None && Free() == old(Free()) && picked == old(picked)
      ensures count <= |old(Free())| ==>
        && r == Some(old(Free())[..count]) && Free() == old(Free())[count..]
        && picked == old(picked) + (set i | i in r.value)
    {
      hide Split;
      ghost var was := Free();
      r := freeObjs.DequeueMultiple(count);
      if r.Some? {
        SplitPick(nbObjs, was, picked, count, set i | i in r.value);
        picked := picked + (set i | i in r.value);
      }
    }

    /** `mempool_put_multiple`. */
    method PutMultiple(objs: seq<nat>)
      requires Valid() && NoDup(objs) && forall i :: i in objs ==> i in picked
      modifies this, freeObjs, freeObjs.slots
      ensures Valid() && Free() == old(Free()) + objs && picked == old(picked) - (set i | i in objs)
    {
      hide Split;
      if |objs| == 0 { return; }
      ghost var less := set i | i in objs;
      Conserved(nbObjs, Free(), picked);
      ghost var e := ElementsSize(objs);
      assert e == less && picked == less + (picked - less);
      SplitPut(nbObjs, Free(), picked, objs, less);
      var ok := freeObjs.EnqueueMultiple(objs);
      picked := picked - less;
    }

    /** The condition that `free_mempool` insists on: all objects are in the ring. */
    method AllBack() returns (ok: bool)
      requires Valid()
      ensures ok <==> picked == {}
    {
      Conserved(nbObjs, Free(), picked);
      var n := freeObjs.Count();
      ok := n == nbObjs;
    }
  }
}
