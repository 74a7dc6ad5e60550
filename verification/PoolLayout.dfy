/** Where the objects of a memory pool lie: sizes rounded up to alignments, addresses, and the
    room before and behind the data of an object. */
module PoolLayout {
  import opened Types
  import opened Bits
  import A = Arith

  const W := 64

  /** What the pool is asked for. `align` is the exponent of the alignment of the data, if one
      is wanted; `poolLen` and `objLen` are the sizes of the two structures. */
  datatype Request = Request(nb: nat, objSize: nat, align: Option<nat>, headroom: nat, tailroom: nat,
                             priv: nat, sep: bool, poolLen: nat, objLen: nat)

  /** The exponent of the alignment that is used; the least alignment is 8. */
  function Exp(r: Request): (k: nat)
    ensures 3 <= k
  {
    if r.align.Some? && 3 < r.align.value then r.align.value else 3
  }

  function Align(r: Request): nat {
    Pow2(Exp(r))
  }

  datatype Sizes = Sizes(h: nat, p: nat, m: nat, o: nat, headroom: nat, tailroom: nat)

  /** All of it can be addressed. */
  ghost predicate Addressable(r: Request) {
    r.poolLen + (r.nb + 1) * (r.objLen + r.priv + r.headroom + r.objSize + r.tailroom + 4 * Align(r)) <= Pow2(W)
  }

  lemma Bounded(r: Request)
    requires Addressable(r)
    ensures r.poolLen + r.objLen + r.priv + r.headroom + r.objSize + r.tailroom + 4 * Align(r) <= Pow2(W)
    ensures Pow2(3) == 8 <= Align(r) && Exp(r) <= W
  {
    A.MulMono(1, r.nb + 1, r.objLen + r.priv + r.headroom + r.objSize + r.tailroom + 4 * Align(r));
    Exponents(Exp(r), W);
  }

  lemma Exponents(k: nat, w: nat)
    requires 3 <= k && Pow2(k) <= Pow2(w)
    ensures Pow2(3) == 8 <= Pow2(k) && k <= w
  {
    assert Pow2(1) == 2 && Pow2(2) == 4;
    Pow2Mono(3, k);
    if w < k { Pow2Mono(w + 1, k); }
  }

  /** `align_up` to an alignment of `2^k`. */
  function Up(x: nat, k: nat): (r: nat)
    requires k <= W && x + Pow2(k) <= Pow2(W)
    ensures x <= r < x + Pow2(k) && r % Pow2(k) == 0
  {
    AlignUpNext(W, x, k);
    AlignUp(W, x, Pow2(k))
  }

  /** The sizes that `alloc_enhanced_mempool` computes. */
  function SizesOf(r: Request): Sizes
    requires Addressable(r)
  {
    hide Pow2, AlignUp, Addressable;
    Bounded(r);
    var k := Exp(r);
    var m := Up(r.objLen, 3);
    var p := m + r.priv;
    if r.sep then
      var headroom := Up(r.headroom, k);
      var o := Up(headroom + r.objSize + r.tailroom, k);
      Sizes(Up(r.poolLen, 3), Up(p, 3), m, Up(o, k), headroom, o - headroom - r.objSize)
    else
      var headroom := Up(p + r.headroom, k) - p;
      var o := Up(p + headroom + r.objSize + r.tailroom, k);
      Sizes(Up(r.poolLen, k), p, m, Up(o, k), headroom, o - headroom - r.objSize - p)
  }

  // ---------------------------------------------------------------- addresses

  /** Where the allocator put the pool and, if they are apart, the data of the objects. */
  datatype Place = Place(pool: nat, data: nat)

  /** `n` steps of `d` bytes. */
  function Steps(n: nat, d: nat): (r: nat)
    ensures r == n * d
  {
    A.MulMono(0, n, d);
    n * d
  }

  /** The distance of two objects. */
  function Step(r: Request, s: Sizes): nat {
    if r.sep then s.p else s.o
  }

  function ObjAt(r: Request, s: Sizes, at: Place, i: nat): nat {
    at.pool + s.h + Steps(i, Step(r, s))
  }

  /** `base`: where the head room of an object begins. */
  function BaseAt(r: Request, s: Sizes, at: Place, i: nat): nat {
    if r.sep then at.data + Steps(i, s.o) else ObjAt(r, s, at, i) + s.p
  }

  /** An area of memory. */
  datatype Area = Area(start: nat, len: nat)

  predicate Inside(a: Area, b: Area) {
    b.start <= a.start && a.start + a.len <= b.start + b.len
  }

  predicate Apart(a: Area, b: Area) {
    a.start + a.len <= b.start || b.start + b.len <= a.start
  }

  /** The two allocations; there is only one if the data lies with the objects. */
  function PoolArea(r: Request, s: Sizes, at: Place): Area {
    Area(at.pool, s.h + Steps(r.nb, Step(r, s)))
  }

  function DataArea(r: Request, s: Sizes, at: Place): Area {
    if r.sep then Area(at.data, Steps(r.nb, s.o)) else PoolArea(r, s, at)
  }

  /** The structure of object `i`, its private area, and its data with the room around it. */
  function Header(r: Request, s: Sizes, at: Place, i: nat): Area {
    Area(ObjAt(r, s, at, i), r.objLen)
  }

  function Private(r: Request, s: Sizes, at: Place, i: nat): Area {
    Area(ObjAt(r, s, at, i) + s.m, r.priv)
  }

  function Buffer(r: Request, s: Sizes, at: Place, i: nat): Area {
    Area(BaseAt(r, s, at, i), s.headroom + r.objSize + s.tailroom)
  }

  /** What the sizes are for: every part of an object has room, and the parts follow each
      other. */
  lemma SizesFit(r: Request)
    requires Addressable(r)
    ensures var s := SizesOf(r);
      && r.poolLen <= s.h && r.objLen <= s.m && s.m + r.priv <= s.p
      && r.headroom <= s.headroom && r.tailroom <= s.tailroom
      && (if r.sep then s.headroom + r.objSize + s.tailroom <= s.o
          else s.p == s.m + r.priv && s.p + s.headroom + r.objSize + s.tailroom <= s.o)
  {
    hide Pow2, AlignUp, Addressable;
  }

  /** And every part begins where its alignment asks for. */
  lemma SizesAligned(r: Request)
    requires Addressable(r)
    ensures var s, a := SizesOf(r), Align(r);
      && s.h % 8 == 0 && s.m % 8 == 0 && s.o % a == 0
      && (if r.sep then s.p % 8 == 0 && s.headroom % a == 0 else s.h % a == 0 && (s.p + s.headroom) % a == 0)
  {
    hide Pow2, AlignUp, Addressable;
    Bounded(r);
    if !r.sep { EightDivides(SizesOf(r).h, Exp(r)); }
  }

  lemma {:induction false} EightDivides(x: nat, k: nat)
    requires 3 <= k && x % Pow2(k) == 0
    ensures x % 8 == 0
  {
    hide Pow2;
    Pow2Sum(3, k - 3);
    Exponents(3, 3);
    var q := x / Pow2(k);
    assert x == q * (8 * Pow2(k - 3)) == 8 * (q * Pow2(k - 3));
  }

  /** All that belongs to object `i`, in its own stretch of either allocation. */
  ghost predicate Parts(r: Request, s: Sizes, at: Place, i: nat) {
    var hi, pi, bi := Header(r, s, at, i), Private(r, s, at, i), Buffer(r, s, at, i);
    var own := Area(ObjAt(r, s, at, i), Step(r, s));
    var data := if r.sep then Area(at.data + Steps(i, s.o), s.o) else own;
    && Inside(hi, own) && Inside(pi, own) && Inside(bi, data)
    && Apart(hi, pi) && (r.sep || (Apart(hi, bi) && Apart(pi, bi)))
    && Inside(own, PoolArea(r, s, at)) && Inside(data, DataArea(r, s, at))
    && Apart(Area(at.pool, r.poolLen), own)
  }

  lemma PartsSafe(r: Request, at: Place, i: nat)
    requires Addressable(r) && i < r.nb
    ensures Parts(r, SizesOf(r), at, i)
  {
    hide SizesOf, Addressable;
    SizesFit(r);
    var s := SizesOf(r);
    StepsInside(i, r.nb, Step(r, s));
    StepsInside(i, r.nb, s.o);
    hide Steps;
  }

  /** Areas inside areas that are apart are apart. */
  lemma ApartInside(a: Area, b: Area, x: Area, y: Area)
    requires Inside(a, x) && Inside(b, y) && Apart(x, y)
    ensures Apart(a, b) && Apart(b, a)
  {}

  /** Of one object: the structure, the private area and the data lie inside the allocations,
      apart from each other and from the head of the pool. */
  lemma ObjectSafe(r: Request, at: Place, i: nat)
    requires Addressable(r) && i < r.nb
    requires r.sep ==> Apart(PoolArea(r, SizesOf(r), at), DataArea(r, SizesOf(r), at))
    ensures var s := SizesOf(r);
      var hi, pi, bi := Header(r, s, at, i), Private(r, s, at, i), Buffer(r, s, at, i);
      && Inside(hi, PoolArea(r, s, at)) && Inside(pi, PoolArea(r, s, at)) && Inside(bi, DataArea(r, s, at))
      && Apart(Area(at.pool, r.poolLen), hi) && Apart(Area(at.pool, r.poolLen), pi)
      && Apart(Area(at.pool, r.poolLen), bi)
      && Apart(hi, pi) && Apart(hi, bi) && Apart(pi, bi)
  {
    hide SizesOf, Addressable, Steps;
    PartsSafe(r, at, i);
    SizesFit(r);
    var s := SizesOf(r);
    if r.sep {
      ApartInside(Header(r, s, at, i), Buffer(r, s, at, i), PoolArea(r, s, at), DataArea(r, s, at));
      ApartInside(Private(r, s, at, i), Buffer(r, s, at, i), PoolArea(r, s, at), DataArea(r, s, at));
      ApartInside(Area(at.pool, r.poolLen), Buffer(r, s, at, i), PoolArea(r, s, at), DataArea(r, s, at));
    }
  }

  /** Of two objects, no parts overlap. */
  lemma ObjectsApart(r: Request, at: Place, i: nat, j: nat)
    requires Addressable(r) && i < r.nb && j < r.nb && i != j
    requires r.sep ==> Apart(PoolArea(r, SizesOf(r), at), DataArea(r, SizesOf(r), at))
    ensures var s := SizesOf(r);
      var hi, pi, bi := Header(r, s, at, i), Private(r, s, at, i), Buffer(r, s, at, i);
      var hj, pj, bj := Header(r, s, at, j), Private(r, s, at, j), Buffer(r, s, at, j);
      Apart(hi, hj) && Apart(hi, pj) && Apart(hi, bj) && Apart(pi, pj) && Apart(pi, bj) && Apart(bi, bj)
  {
    hide SizesOf, Addressable, Inside, Header, Private, Buffer, PoolArea, DataArea;
    PartsSafe(r, at, i);
    PartsSafe(r, at, j);
    var s := SizesOf(r);
    var hi, pi, bi := Header(r, s, at, i), Private(r, s, at, i), Buffer(r, s, at, i);
    var hj, pj, bj := Header(r, s, at, j), Private(r, s, at, j), Buffer(r, s, at, j);
    var x, y := Area(ObjAt(r, s, at, i), Step(r, s)), Area(ObjAt(r, s, at, j), Step(r, s));
    StepsApart(i, j, Step(r, s));
    ApartInside(hi, hj, x, y);
    ApartInside(hi, pj, x, y);
    ApartInside(pi, pj, x, y);
    if r.sep {
      var u, w := Area(at.data + Steps(i, s.o), s.o), Area(at.data + Steps(j, s.o), s.o);
      StepsApart(i, j, s.o);
      ApartInside(bi, bj, u, w);
      Through(hi, x, PoolArea(r, s, at));
      Through(pi, x, PoolArea(r, s, at));
      Through(bj, w, DataArea(r, s, at));
      ApartInside(hi, bj, PoolArea(r, s, at), DataArea(r, s, at));
      ApartInside(pi, bj, PoolArea(r, s, at), DataArea(r, s, at));
    } else {
      ApartInside(hi, bj, x, y);
      ApartInside(pi, bj, x, y);
      ApartInside(bi, bj, x, y);
    }
  }

  lemma Through(a: Area, b: Area, c: Area)
    requires Inside(a, b) && Inside(b, c)
    ensures Inside(a, c)
  {}

  lemma StepsInside(i: nat, n: nat, d: nat)
    requires i < n
    ensures Steps(i, d) + d <= Steps(n, d)
  {
    A.MulMono(i + 1, n, d);
  }

  lemma StepsApart(i: nat, j: nat, d: nat)
    requires i != j
    ensures Steps(i, d) + d <= Steps(j, d) || Steps(j, d) + d <= Steps(i, d)
  {
    if i < j { A.MulMono(i + 1, j, d); } else { A.MulMono(j + 1, i, d); }
  }

  /** The data of a reset object is aligned as asked for, and its structure for a pointer. */
  lemma DataAligned(r: Request, at: Place, i: nat)
    requires Addressable(r) && at.pool % (if r.sep then 8 else Align(r)) == 0 && at.data % Align(r) == 0
    ensures var s := SizesOf(r);
      (BaseAt(r, s, at, i) + s.headroom) % Align(r) == 0 && ObjAt(r, s, at, i) % 8 == 0
  {
    hide SizesOf, Addressable, Pow2;
    Bounded(r);
    SizesAligned(r);
    var s, a := SizesOf(r), Align(r);
    MultipleSteps(i, s.o, a);
    if r.sep {
      MultipleSteps(i, s.p, 8);
      MultipleSum(at.data, Steps(i, s.o), a);
      MultipleSum(at.data + Steps(i, s.o), s.headroom, a);
      MultipleSum(at.pool, s.h, 8);
      MultipleSum(at.pool + s.h, Steps(i, s.p), 8);
    } else {
      MultipleSum(at.pool, s.h, a);
      MultipleSum(at.pool + s.h, Steps(i, s.o), a);
      MultipleSum(ObjAt(r, s, at, i), s.p + s.headroom, a);
      EightDivides(ObjAt(r, s, at, i), Exp(r));
    }
  }

  lemma MultipleSum(x: nat, y: nat, a: nat)
    requires 0 < a && x % a == 0 && y % a == 0
    ensures (x + y) % a == 0
  {
    assert x == x / a * a && y == y / a * a;
    assert x + y == (x / a + y / a) * a;
    A.DivUnique(x + y, a, x / a + y / a, 0);
  }

  lemma MultipleSteps(n: nat, d: nat, a: nat)
    requires 0 < a && d % a == 0
    ensures Steps(n, d) % a == 0
  {
    var q := d / a;
    assert d == q * a;
    assert n * d == n * q * a;
    A.MulMono(0, n, q);
    A.DivUnique(n * d, a, n * q, 0);
  }

  // ---------------------------------------------------------------- objects

  /** `mempool_obj`; `private` is 0 if the pool has no private areas. */
  class Obj {
    const base: nat
    const private: nat
    var data: nat
    var lhr: nat
    var ltr: nat
    var len: nat

    /** The room before, in and behind the data is that of a pool with sizes `s`. */
    ghost predicate Valid(r: Request, s: Sizes)
      reads this
    {
      lhr + len + ltr == s.headroom + r.objSize + s.tailroom && data == base + lhr
    }

    /** `mempool_reset_obj`, on an object whose `base` and `private` are set. */
    constructor (base: nat, private: nat, r: Request, s: Sizes)
      ensures Valid(r, s) && this.base == base && this.private == private
      ensures lhr == s.headroom && len == r.objSize && ltr == s.tailroom
    {
      this.base, this.private := base, private;
      len, lhr, ltr, data := r.objSize, s.headroom, s.tailroom, base + s.headroom;
    }

    method Reset(r: Request, s: Sizes)
      modifies this
      ensures Valid(r, s) && lhr == s.headroom && len == r.objSize && ltr == s.tailroom
    {
      len, lhr, ltr, data := r.objSize, s.headroom, s.tailroom, base + s.headroom;
    }

    /** `mempool_obj_prepend`. The length is signed, but compared as an unsigned number, so that
        a negative one is always larger than the head room: the head can only grow. */
    method Prepend(add: int, ghost r: Request, ghost s: Sizes) returns (ok: bool)
      requires Valid(r, s) && -0x8000_0000_0000_0000 <= add < 0x8000_0000_0000_0000
      requires s.headroom + r.objSize + s.tailroom < 0x8000_0000_0000_0000
      modifies this
      ensures Valid(r, s) && ltr == old(ltr)
      ensures ok <==> 0 <= add <= old(lhr)
      ensures if ok then lhr == old(lhr) - add && len == old(len) + add && data == old(data) - add
              else lhr == old(lhr) && len == old(len) && data == old(data)
    {
      var asSize := if add < 0 then add + 0x1_0000_0000_0000_0000 else add;
      if lhr < asSize || (add < 0 && len < -add) { return false; }
      lhr := lhr - add;
      len := len + add;
      data := data - add;
      ok := true;
    }

    /** `mempool_obj_append`, likewise. */
    method Append(add: int, ghost r: Request, ghost s: Sizes) returns (ok: bool)
      requires Valid(r, s) && -0x8000_0000_0000_0000 <= add < 0x8000_0000_0000_0000
      requires s.headroom + r.objSize + s.tailroom < 0x8000_0000_0000_0000
      modifies this
      ensures Valid(r, s) && lhr == old(lhr) && data == old(data)
      ensures ok <==> 0 <= add <= old(ltr)
      ensures if ok then ltr == old(ltr) - add && len == old(len) + add else ltr == old(ltr) && len == old(len)
    {
      var asSize := if add < 0 then add + 0x1_0000_0000_0000_0000 else add;
      if ltr < asSize || (add < 0 && len < -add) { return false; }
      ltr := ltr - add;
      len := len + add;
      ok := true;
    }
  }

  /** The data of an object never leaves its buffer. */
  lemma DataInside(r: Request, s: Sizes, at: Place, i: nat, o: Obj)
    requires o.Valid(r, s) && o.base == BaseAt(r, s, at, i)
    ensures Inside(Area(o.data, o.len), Buffer(r, s, at, i))
  {}

  /** The loop of `alloc_enhanced_mempool` that initialises the objects: it steps from object to
      object, and they lie where the layout says. */
  method InitObjects(r: Request, at: Place) returns (objs: seq<Obj>, addrs: seq<nat>)
    requires Addressable(r)
    ensures |objs| == |addrs| == r.nb
    ensures var s := SizesOf(r);
      forall i :: 0 <= i < r.nb ==>
        && addrs[i] == ObjAt(r, s, at, i) && fresh(objs[i]) && objs[i].Valid(r, s)
        && objs[i].base == BaseAt(r, s, at, i) && objs[i].data == objs[i].base + s.headroom
        && objs[i].private == if r.priv != 0 then ObjAt(r, s, at, i) + s.m else 0
  {
    hide SizesOf, Addressable, Steps;
    var s := SizesOf(r);
    objs, addrs := [], [];
    var obj := at.pool + s.h;
    NextStep(0, Step(r, s));
    for i := 0 to r.nb
      invariant |objs| == |addrs| == i && obj == ObjAt(r, s, at, i)
      invariant forall k :: 0 <= k < i ==>
        && addrs[k] == ObjAt(r, s, at, k) && fresh(objs[k]) && objs[k].Valid(r, s)
        && objs[k].base == BaseAt(r, s, at, k) && objs[k].data == objs[k].base + s.headroom
        && objs[k].private == if r.priv != 0 then ObjAt(r, s, at, k) + s.m else 0
    {
      var base := if r.sep then at.data + Steps(i, s.o) else obj + s.p;
      var private := if r.priv != 0 then obj + s.m else 0;
      var o := new Obj(base, private, r, s);
      objs, addrs := objs + [o], addrs + [obj];
      obj := obj + (if r.sep then s.p else s.o);
      NextStep(i, Step(r, s));
    }
  }

  lemma NextStep(i: nat, d: nat)
    ensures Steps(0, d) == 0 && Steps(i + 1, d) == Steps(i, d) + d
  {}
}
