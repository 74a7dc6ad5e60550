/** How large a volume is, and whether its chunks lie on its members. */
module VolumeSize {
  import opened Arith
  import opened Striping

  /** The size `mkfs` gives a volume whose smallest member has `dsize` bytes. */
  function VolSize(g: Geometry, dsize: nat): nat
    requires g.Valid() && g.ChunkSize() <= dsize
  {
    if g.combined then (dsize - g.ChunkSize() + g.ss) / g.ss
    else (dsize - g.ChunkSize()) / g.ChunkSize() * g.nb
  }

  /** The least member size that the mount check accepts. */
  function MinMemberSize(g: Geometry, vol: nat): nat
    requires g.Valid()
  {
    if g.combined then (vol + 1) * g.ss else (vol + 1) / g.nb * g.ss
  }

  /** Every stripe of every chunk from 1 to `vol` lies inside a member of `dsize` bytes. */
  ghost predicate Fits(g: Geometry, vol: nat, dsize: nat)
    requires g.Valid()
  {
    forall c: nat, u: nat :: 0 < c <= vol && InChunk(g, c, u) ==> g.Offset(u) + g.ss <= dsize
  }

  /** The row of the last stripe of chunk `c`. */
  function LastRow(g: Geometry, c: nat): nat
    requires g.Valid()
  {
    if g.combined then c else (c + (g.nb - 1)) / g.nb
  }

  lemma RowOf(g: Geometry, c: nat, u: nat)
    requires g.Valid() && InChunk(g, c, u)
    ensures u / g.nb == LastRow(g, c)
  {
    if g.combined { DivUnique(u, g.nb, c, u - c * g.nb); }
  }

  lemma DivMono(a: nat, b: nat, d: nat)
    requires a <= b && 0 < d
    ensures a / d <= b / d
  {
    assert a == a / d * d + a % d && b == b / d * d + b % d;
    if b / d < a / d { MulMono(b / d + 1, a / d, d); }
  }

  /** A volume fits exactly if its last chunk does. */
  lemma FitsExact(g: Geometry, vol: nat, dsize: nat)
    requires g.Valid() && 0 < vol
    ensures Fits(g, vol, dsize) <==> (LastRow(g, vol) + 1) * g.ss <= dsize
  {
    assert (LastRow(g, vol) + 1) * g.ss == LastRow(g, vol) * g.ss + g.ss;
    var last := g.First(vol);
    if g.combined { MulMono(1, g.nb, 1); }
    assert InChunk(g, vol, last);
    RowOf(g, vol, last);
    forall c: nat, u: nat | 0 < c <= vol && InChunk(g, c, u)
      ensures g.Offset(u) <= LastRow(g, vol) * g.ss
    {
      RowOf(g, c, u);
      if !g.combined { DivMono(c + (g.nb - 1), vol + (g.nb - 1), g.nb); }
      MulMono(u / g.nb, LastRow(g, vol), g.ss);
    }
  }

  /** The mount check is right for combined stripes and for a single member. With more
      independent members it accepts members on which the last chunk does not fit, for
      every volume size. */
  lemma MountCheckExact(g: Geometry, vol: nat)
    requires g.Valid() && 0 < vol
    ensures (forall dsize: nat :: MinMemberSize(g, vol) <= dsize ==> Fits(g, vol, dsize)) <==> g.combined || g.nb == 1
    ensures g.combined || g.nb == 1 ==> forall dsize: nat :: Fits(g, vol, dsize) <==> MinMemberSize(g, vol) <= dsize
  {
    forall dsize: nat
      ensures Fits(g, vol, dsize) <==> (LastRow(g, vol) + 1) * g.ss <= dsize
    {
      FitsExact(g, vol, dsize);
    }
    if !g.combined {
      if g.nb == 1 {
        assert LastRow(g, vol) == vol && (vol + 1) / g.nb == vol + 1;
      } else {
        DivMono(vol + 1, vol + (g.nb - 1), g.nb);
        MulMono((vol + 1) / g.nb + 1, LastRow(g, vol) + 1, g.ss);
        assert ((vol + 1) / g.nb + 1) * g.ss == (vol + 1) / g.nb * g.ss + g.ss;
        assert !Fits(g, vol, MinMemberSize(g, vol));
      }
    }
  }

  lemma DivBelow(x: nat, d: nat)
    requires 0 < d
    ensures x / d * d <= x < x / d * d + d
  {
  }

  /** With combined stripes, what `mkfs` computes fits iff there are at least two members. */
  lemma MkfsCombined(g: Geometry, dsize: nat)
    requires g.Valid() && g.combined && g.ChunkSize() <= dsize
    ensures Fits(g, VolSize(g, dsize), dsize) <==> 2 <= g.nb
    ensures 2 <= g.nb ==> MinMemberSize(g, VolSize(g, dsize)) <= dsize
  {
    hide Fits;
    var vol, ss := VolSize(g, dsize), g.ss;
    var x := dsize - g.ChunkSize() + ss;
    DivBelow(x, ss);
    assert (vol + 1) * ss == vol * ss + ss;
    DivMono(ss, x, ss);
    DivUnique(ss, ss, 1, 0);
    FitsExact(g, vol, dsize);
    if 2 <= g.nb { MulMono(2, g.nb, ss); }
    assert g.nb == 1 ==> g.ChunkSize() == ss;
  }

  /** With independent members it always fits. */
  lemma MkfsIndependent(g: Geometry, dsize: nat)
    requires g.Valid() && !g.combined && g.ss <= dsize
    ensures Fits(g, VolSize(g, dsize), dsize)
    ensures MinMemberSize(g, VolSize(g, dsize)) <= dsize
  {
    var ss, rows := g.ss, (dsize - g.ss) / g.ss;
    var vol := rows * g.nb;
    assert VolSize(g, dsize) == vol by { assert g.ChunkSize() == ss; }
    hide Fits, VolSize;
    DivBelow(dsize - ss, ss);
    assert (rows + 1) * ss == rows * ss + ss;
    DivUnique(vol + (g.nb - 1), g.nb, rows, g.nb - 1);
    NoChunks(g, dsize);
    if 0 < vol { FitsExact(g, vol, dsize); }
    if g.nb == 1 { DivUnique(vol + 1, 1, vol + 1, 0); } else { DivUnique(vol + 1, g.nb, rows, 1); }
  }

  lemma NoChunks(g: Geometry, dsize: nat)
    requires g.Valid()
    ensures Fits(g, 0, dsize)
  {
  }

  /** `a` whole pieces of size `d` lie in `x`. */
  lemma PiecesIn(a: nat, x: nat, d: nat)
    requires 0 < d
    ensures a * d <= x <==> a <= x / d
  {
    DivBelow(x, d);
    if a <= x / d { MulMono(a, x / d, d); } else { MulMono(x / d + 1, a, d); }
  }

  lemma RowsNeeded(n: nat, nb: nat, rows: nat)
    requires 0 < nb
    ensures (n + (nb - 1)) / nb <= rows <==> n <= rows * nb
  {
    var q := (n + (nb - 1)) / nb;
    DivBelow(n + (nb - 1), nb);
    if q <= rows { MulMono(q, rows, nb); } else { MulMono(rows + 1, q, nb); }
  }

  /** How many chunks fit: exactly as many as `mkfs` computes if the members are independent or two
      are combined. Combining more, it leaves one chunk unused for every member from the third on;
      with a single one it computes one chunk too many. */
  lemma MkfsExact(g: Geometry, dsize: nat, n: nat)
    requires g.Valid() && g.ChunkSize() <= dsize
    ensures Fits(g, n, dsize) <==> n <= VolSize(g, dsize) + if g.combined then g.nb - 2 else 0
  {
    var ss, rows := g.ss, dsize / g.ss;
    NoChunks(g, dsize);
    if 0 < n { FitsExact(g, n, dsize); }
    PiecesIn(LastRow(g, n) + 1, dsize, ss);
    if g.combined {
      Shifted(dsize, g.nb, ss);
      MulMono(1, g.nb, ss);
      PiecesIn(1, dsize, ss);
    } else {
      assert g.ChunkSize() == ss;
      Shifted(dsize, 1, ss);
      MulMono(1, 1, ss);
      PiecesIn(1, dsize, ss);
      VolIndependent(g, dsize);
      RowsNeeded(n, g.nb, rows - 1);
    }
  }

  lemma VolIndependent(g: Geometry, dsize: nat)
    requires g.Valid() && !g.combined && g.ss <= dsize
    ensures VolSize(g, dsize) == (dsize / g.ss - 1) * g.nb
  {
    assert g.ChunkSize() == g.ss;
    Shifted(dsize, 1, g.ss);
  }

  lemma Shifted(x: nat, k: nat, d: nat)
    requires 0 < d && k * d <= x
    ensures (x - k * d) / d == x / d - k && (x - k * d + d) / d == x / d - k + 1
  {
    DivBelow(x, d);
    PiecesIn(k, x, d);
    assert (x / d - k) * d == x / d * d - k * d;
    DivUnique(x - k * d, d, x / d - k, x % d);
    assert (x / d - k + 1) * d == (x / d - k) * d + d;
    DivUnique(x - k * d + d, d, x / d - k + 1, x % d);
  }

  /** What `mkfs` computes for the smallest member fits on it and passes the mount check,
      unless it combines the stripes of a single member, which `main` never asks for. */
  lemma MkfsFits(g: Geometry, dsize: nat)
    requires g.Valid() && g.ChunkSize() <= dsize
    ensures Fits(g, VolSize(g, dsize), dsize) <==> !g.combined || 2 <= g.nb
    ensures !g.combined || 2 <= g.nb ==> MinMemberSize(g, VolSize(g, dsize)) <= dsize
  {
    if g.combined { MkfsCombined(g, dsize); } else { MkfsIndependent(g, dsize); }
  }
}
