/** The bounded ring that queues references to free objects. */
module Ring {
  import opened Types
  import Bits

  /** The slot `k` places after slot `at` in a ring of `size` slots. */
  ghost function Place(size: nat, at: nat, k: nat): (i: nat)
    requires at < size && k < size
    ensures i < size
  {
    if at + k < size then at + k else at + k - size
  }

  /** A ring of `size` slots, a power of two, holds `size - 1` objects: the slot before the
      first object stays empty so that a full ring differs from an empty one. */
  class Ring {
    var enqIdx: nat
    var deqIdx: nat
    const size: nat
    const mask: nat
    const slots: array<nat>
    ghost const order: nat

    ghost predicate Valid()
      reads this
    {
      && size == Bits.Pow2(order) <= 0x8000_0000 && mask == size - 1 && slots.Length == size
      && enqIdx < size && deqIdx < size
    }

    /** The number of objects in the ring. */
    ghost function Used(): (n: nat)
      requires Valid()
      reads this
      ensures n < size
    {
      if deqIdx <= enqIdx then enqIdx - deqIdx else size + enqIdx - deqIdx
    }

    /** The objects in the ring, first to last. */
    ghost function Contents(): (c: seq<nat>)
      requires Valid()
      reads this, slots
      ensures |c| == Used()
      ensures forall k :: 0 <= k < |c| ==> c[k] == slots[Place(size, deqIdx, k)]
    {
      seq(Used(), k requires Valid() && 0 <= k < Used() reads this, slots => slots[Place(size, deqIdx, k)])
    }

    /** `alloc_ring`. */
    constructor (ghost order: nat, size: nat)
      requires size == Bits.Pow2(order) <= 0x8000_0000
      ensures Valid() && Contents() == [] && this.size == size && fresh(slots)
    {
      enqIdx, deqIdx := 0, 0;
      this.size, mask := size, size - 1;
      slots := new nat[size](_ => 0);
      this.order := order;
    }

    /** Masking an index that went at most once around the ring. */
    lemma Wraps(x: nat)
      requires Valid() && x < 2 * size
      ensures Bits.And(x, mask) == if x < size then x else x - size
    {
      Bits.AndMask(x, order);
      if x < size { Bits.Small(x, size); } else { Bits.Arith.DivUnique(x, size, 1, x - size); }
    }

    /** `ring_count`: the index arithmetic counts the objects. */
    method Count() returns (n: nat)
      requires Valid()
      ensures n == |Contents()|
    {
      hide Bits.And, Bits.Pow2;
      Wraps(size + enqIdx - deqIdx);
      n := Bits.And(size + enqIdx - deqIdx, mask);
    }

    /** `ring_avail`: and the room that is left. */
    method Avail() returns (n: nat)
      requires Valid()
      ensures n + |Contents()| == size - 1
    {
      hide Bits.And, Bits.Pow2;
      Wraps(mask + deqIdx - enqIdx);
      n := Bits.And(mask + deqIdx - enqIdx, mask);
    }

    method Full() returns (full: bool)
      requires Valid()
      ensures full <==> |Contents()| == size - 1
    {
      hide Bits.And, Bits.Pow2;
      Wraps(enqIdx + 1);
      full := Bits.And(enqIdx + 1, mask) == deqIdx;
    }

    method Empty() returns (empty: bool)
      requires Valid()
      ensures empty <==> Contents() == []
    {
      empty := enqIdx == deqIdx;
    }

    /** `ring_enqueue`: appends unless the ring is full. */
    method Enqueue(x: nat) returns (ok: bool)
      requires Valid()
      modifies this`enqIdx, slots
      ensures Valid() && ok == (|old(Contents())| < size - 1)
      ensures Contents() == if ok then old(Contents()) + [x] else old(Contents())
    {
      hide Bits.And, Bits.Pow2;
      Wraps(enqIdx + 1);
      if Bits.And(enqIdx + 1, mask) == deqIdx { return false; }
      slots[enqIdx] := x;
      enqIdx := Bits.And(enqIdx + 1, mask);
      ok := true;
    }

    /** `ring_dequeue`: takes the first object unless the ring is empty. */
    method Dequeue() returns (r: Option<nat>)
      requires Valid()
      modifies this`deqIdx
      ensures Valid()
      ensures old(Contents()) == [] ==> r == None && Contents() == []
      ensures old(Contents()) != [] ==> r == Some(old(Contents())[0]) && Contents() == old(Contents())[1..]
    {
      hide Bits.And, Bits.Pow2;
      if deqIdx == enqIdx { return None; }
      Wraps(deqIdx + 1);
      r := Some(slots[deqIdx]);
      deqIdx := Bits.And(deqIdx + 1, mask);
    }

    /** `ring_enqueue_multiple`: all objects or none. */
    method EnqueueMultiple(xs: seq<nat>) returns (ok: bool)
      requires Valid()
      modifies this`enqIdx, slots
      ensures Valid() && ok == (|old(Contents())| + |xs| <= size - 1)
      ensures Contents() == if ok then old(Contents()) + xs else old(Contents())
    {
      hide Bits.And, Bits.Pow2;
      var n := Count();
      if size - 1 - n < |xs| { return false; }
      ghost var used, want := Used(), Contents() + xs;
      var idx := enqIdx;
      for i := 0 to |xs|
        invariant enqIdx == old(enqIdx) && deqIdx == old(deqIdx)
        invariant idx == Place(size, deqIdx, used + i)
        invariant forall k :: 0 <= k < used + i ==> slots[Place(size, deqIdx, k)] == want[k]
      {
        slots[idx] := xs[i];
        Wraps(idx + 1);
        idx := Bits.And(idx + 1, mask);
      }
      enqIdx := idx;
      assert Contents() == want;
      ok := true;
    }

    /** `ring_dequeue_multiple`: `count` objects or none. */
    method DequeueMultiple(count: nat) returns (r: Option<seq<nat>>)
      requires Valid()
      modifies this`deqIdx
      ensures Valid()
      ensures |old(Contents())| < count ==> r == None && Contents() == old(Contents())
      ensures count <= |old(Contents())| ==>
        r == Some(old(Contents())[..count]) && Contents() == old(Contents())[count..]
    {
      hide Bits.And, Bits.Pow2;
      var n := Count();
      if n < count { return None; }
      ghost var was := Contents();
      var xs: seq<nat> := [];
      var idx := deqIdx;
      for i := 0 to count
        invariant enqIdx == old(enqIdx) && deqIdx == old(deqIdx)
        invariant idx == Place(size, deqIdx, i) && xs == was[..i]
      {
        xs := xs + [slots[idx]];
        Wraps(idx + 1);
        idx := Bits.And(idx + 1, mask);
      }
      deqIdx := idx;
      assert |Contents()| == |was| - count;
      assert Contents() == was[count..];
      r := Some(xs);
    }
  }
}
