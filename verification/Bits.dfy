/** Unsigned machine words as natural numbers: powers of two, masks, rounding up to an
    alignment, and the position of the highest bit. */
module Bits {
  import Arith

  function Pow2(k: nat): (p: nat)
    ensures 1 <= p
  {
    if k == 0 then 1 else 2 * Pow2(k - 1)
  }

  /** Bitwise and. */
  function And(x: nat, y: nat): (r: nat)
    ensures r <= x && r <= y
  {
    if x == 0 || y == 0 then 0
    else 2 * And(x / 2, y / 2) + (if x % 2 == 1 && y % 2 == 1 then 1 else 0)
  }

  lemma {:induction false} Pow2Mono(j: nat, k: nat)
    requires j <= k
    ensures Pow2(j) <= Pow2(k)
  {
    if j < k { Pow2Mono(j, k - 1); }
  }

  lemma {:induction false} Pow2Sum(j: nat, k: nat)
    ensures Pow2(j + k) == Pow2(j) * Pow2(k)
  {
    if j > 0 { Pow2Sum(j - 1, k); }
  }

  lemma Pow2Of31()
    ensures Pow2(31) == 0x8000_0000
  {
    assert Pow2(3) == 8 && Pow2(4) == 16;
    Pow2Sum(4, 4);
    Pow2Sum(4, 3);
    Pow2Sum(8, 8);
    Pow2Sum(8, 7);
    Pow2Sum(16, 15);
  }

  /** The remainder by an even number, one bit at a time. */
  lemma ModTwice(x: nat, p: nat)
    requires 0 < p
    ensures x % (2 * p) == 2 * (x / 2 % p) + x % 2
  {
    var q, r := x / 2 / p, x / 2 % p;
    assert x / 2 == q * p + r;
    assert x == q * (2 * p) + (2 * r + x % 2);
    Arith.DivUnique(x, 2 * p, q, 2 * r + x % 2);
  }

  lemma {:induction false} OddMask(x: nat, p: nat)
    requires 0 < p
    ensures And(x, 2 * p - 1) == 2 * And(x / 2, p - 1) + x % 2
  {
    assert (2 * p - 1) / 2 == p - 1 && (2 * p - 1) % 2 == 1;
  }

  lemma {:induction false} EvenMask(x: nat, p: nat)
    ensures And(x, 2 * p) == 2 * And(x / 2, p)
  {
    assert (2 * p) / 2 == p && (2 * p) % 2 == 0;
  }

  /** Masking with a power of two less one takes the remainder. */
  lemma {:induction false} AndMask(x: nat, k: nat)
    ensures And(x, Pow2(k) - 1) == x % Pow2(k)
  {
    hide And;
    if k == 0 {
      assert And(x, 0) == 0;
    } else {
      var p := Pow2(k - 1);
      OddMask(x, p);
      AndMask(x / 2, k - 1);
      ModTwice(x, p);
    }
  }

  /** Clearing the bits below a power of two rounds down to a multiple of it. */
  lemma {:induction false} AndNotMask(x: nat, k: nat, w: nat)
    requires k <= w && x < Pow2(w)
    ensures Pow2(k) <= Pow2(w)
    ensures And(x, Pow2(w) - Pow2(k)) == x - x % Pow2(k)
  {
    hide And;
    Pow2Mono(k, w);
    if k == 0 {
      AndMask(x, w);
      Small(x, Pow2(w));
    } else {
      var p, q := Pow2(k - 1), Pow2(w - 1);
      AndNotMask(x / 2, k - 1, w - 1);
      EvenMask(x, q - p);
      ModTwice(x, p);
    }
  }

  lemma Small(x: nat, d: nat)
    requires x < d
    ensures x % d == x
  {
    Arith.DivUnique(x, d, 0, x);
  }

  /** `ALIGN_UP` and `align_up` on words of `w` bits. */
  function AlignUp(w: nat, size: nat, align: nat): nat
    requires 0 < align <= Pow2(w)
  {
    And((size + align - 1) % Pow2(w), Pow2(w) - align)
  }

  /** The result is the next multiple of the alignment, unless the word overflows. */
  lemma AlignUpNext(w: nat, size: nat, k: nat)
    requires k <= w && size + Pow2(k) <= Pow2(w)
    ensures var a := AlignUp(w, size, Pow2(k)); a % Pow2(k) == 0 && size <= a < size + Pow2(k)
  {
    hide And;
    var p, x := Pow2(k), size + Pow2(k) - 1;
    Small(x, Pow2(w));
    AndNotMask(x, k, w);
    RoundDown(x, p);
  }

  lemma RoundDown(x: nat, p: nat)
    requires 0 < p
    ensures 0 <= x - x % p && (x - x % p) % p == 0 && x % p < p
  {
    Arith.DivUnique(x - x % p, p, x / p, 0);
  }

  /** `log2`: the position of the highest bit; for 0 the counter wraps around. */
  method Log2(v: nat) returns (r: nat)
    requires v < 0x1_0000_0000
    ensures 0 < v ==> Pow2(r) <= v < Pow2(r + 1)
    ensures v == 0 ==> r == 0xFFFF_FFFF
  {
    var i, w: nat := 0, v;
    while 0 < w
      invariant w * Pow2(i) <= v < (w + 1) * Pow2(i)
      invariant 0 < v && w == 0 ==> 0 < i && Pow2(i - 1) <= v
      invariant (i == 0 ==> w == v) && (v == 0 ==> i == 0)
    {
      HalfStep(v, w, Pow2(i));
      w := w / 2;
      i := i + 1;
    }
    r := if i == 0 then 0xFFFF_FFFF else i - 1;
  }

  lemma HalfStep(v: nat, w: nat, p: nat)
    requires 0 < w && w * p <= v < (w + 1) * p
    ensures w / 2 * (2 * p) <= v < (w / 2 + 1) * (2 * p)
    ensures w == 1 ==> p <= v
  {
    assert w / 2 * (2 * p) == 2 * (w / 2) * p;
    assert (w / 2 + 1) * (2 * p) == 2 * (w / 2 + 1) * p;
    Arith.MulMono(2 * (w / 2), w, p);
    Arith.MulMono(w + 1, 2 * (w / 2 + 1), p);
  }
}
