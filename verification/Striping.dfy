/** How chunks are spread over the members of a volume, and the tools' and the kernel's
    transfers of chunks. */
module Striping {
  import opened Types
  import opened Arith

  /** A volume: how many members, the stripe size in bytes, and whether a chunk is one
      stripe on one member (independent) or one stripe on every member (combined). */
  datatype Geometry = Geometry(nb: nat, ss: nat, combined: bool) {

    predicate Valid() {
      0 < nb && 0 < ss
    }

    /** Stripes per chunk. */
    function Width(): nat {
      if combined then nb else 1
    }

    function ChunkSize(): nat {
      Width() * ss
    }

    /** The first stripe of chunk `c`. Chunk 0 takes the first stripe of every member. */
    function First(c: nat): nat
      requires 0 < nb
    {
      if combined then c * nb else c + (nb - 1)
    }

    function Member(t: nat): (m: nat)
      requires 0 < nb
      ensures m < nb
    {
      t % nb
    }

    /** The byte on the member where stripe `t` begins. */
    function Offset(t: nat): nat
      requires 0 < nb
    {
      t / nb * ss
    }
  }

  /** Chunk after chunk, stripe after stripe. */
  lemma FirstAdd(g: Geometry, c: nat, n: nat)
    requires g.Valid()
    ensures g.First(c + n) == g.First(c) + n * g.Width()
  {
  }

  /** Two stripes with a byte in common are the same stripe. */
  lemma StripesApart(g: Geometry, t: nat, u: nat, i: nat, j: nat)
    requires g.Valid() && i < g.ss && j < g.ss
    requires g.Member(t) == g.Member(u) && g.Offset(t) + i == g.Offset(u) + j
    ensures t == u && i == j
  {
    DivUnique(g.Offset(t) + i, g.ss, t / g.nb, i);
    DivUnique(g.Offset(u) + j, g.ss, u / g.nb, j);
    assert t == t / g.nb * g.nb + t % g.nb;
    assert u == u / g.nb * g.nb + u % g.nb;
  }

  /** Different stripes of a member do not overlap. */
  lemma StripesDisjoint(g: Geometry, t: nat, u: nat)
    requires g.Valid() && t != u && g.Member(t) == g.Member(u)
    ensures g.Offset(t) + g.ss <= g.Offset(u) || g.Offset(u) + g.ss <= g.Offset(t)
  {
    var a, b := t / g.nb, u / g.nb;
    assert t == a * g.nb + t % g.nb && u == b * g.nb + u % g.nb;
    assert (a + 1) * g.ss == a * g.ss + g.ss && (b + 1) * g.ss == b * g.ss + g.ss;
    if a < b { MulMono(a + 1, b, g.ss); } else { MulMono(b + 1, a, g.ss); }
  }

  /** `d` with `s` written over it at `b`. */
  function Splice(d: seq<Byte>, b: nat, s: seq<Byte>): (r: seq<Byte>)
    requires b + |s| <= |d|
    ensures |r| == |d|
  {
    d[..b] + s + d[b + |s|..]
  }

  lemma SpliceParts(d: seq<Byte>, b: nat, s: seq<Byte>)
    requires b + |s| <= |d|
    ensures var r := Splice(d, b, s); r[..b] == d[..b] && r[b..b + |s|] == s && r[b + |s|..] == d[b + |s|..]
  {}

  lemma SpliceRest(d: seq<Byte>, b: nat, s: seq<Byte>, a: nat, n: nat)
    requires b + |s| <= |d| && a + n <= |d|
    requires a + n <= b || b + |s| <= a
    ensures Splice(d, b, s)[a..a + n] == d[a..a + n]
  {
  }

  // ---------------------------------------------------------------- what a transfer does

  /** The contents of the members. */
  type Image = seq<seq<Byte>>

  /** Stripe `t` lies inside its member. */
  predicate Inside(g: Geometry, img: Image, t: nat) {
    g.Valid() && |img| == g.nb && g.Offset(t) + g.ss <= |img[g.Member(t)]|
  }

  predicate AllInside(g: Geometry, img: Image, t: nat, n: nat) {
    forall u :: t <= u < t + n ==> Inside(g, img, u)
  }

  function Stripe(g: Geometry, img: Image, t: nat): (s: seq<Byte>)
    requires Inside(g, img, t)
    ensures |s| == g.ss
  {
    img[g.Member(t)][g.Offset(t)..g.Offset(t) + g.ss]
  }

  function SetStripe(g: Geometry, img: Image, t: nat, s: seq<Byte>): (r: Image)
    requires Inside(g, img, t) && |s| == g.ss
  {
    var m, b := g.Member(t), g.Offset(t);
    img[m := Splice(img[m], b, s)]
  }

  /** Writing a stripe changes that stripe and no other. */
  lemma SetStripeStripe(g: Geometry, img: Image, t: nat, s: seq<Byte>, u: nat)
    requires Inside(g, img, t) && |s| == g.ss && Inside(g, img, u)
    ensures Inside(g, SetStripe(g, img, t, s), u)
    ensures Stripe(g, SetStripe(g, img, t, s), u) == if u == t then s else Stripe(g, img, u)
  {
    if u != t && g.Member(u) == g.Member(t) {
      StripesDisjoint(g, t, u);
      SpliceRest(img[g.Member(t)], g.Offset(t), s, g.Offset(u), g.ss);
    }
  }

  /** A buffer with room for `n` stripes. */
  predicate Room(g: Geometry, data: seq<Byte>, n: nat) {
    n * g.ss <= |data|
  }

  lemma RoomLess(g: Geometry, data: seq<Byte>, n: nat, k: nat)
    requires Room(g, data, n) && k <= n
    ensures Room(g, data, k)
  {
    MulMono(k, n, g.ss);
  }

  /** What lies behind the first `n` stripes of a buffer. */
  function Rest(g: Geometry, data: seq<Byte>, n: nat): (s: seq<Byte>)
    requires Room(g, data, n)
  {
    data[n * g.ss..]
  }

  lemma RestLess(g: Geometry, a: seq<Byte>, b: seq<Byte>, k: nat)
    requires Room(g, a, k + 1) && Room(g, b, k + 1) && Room(g, a, k) && Room(g, b, k)
    requires Rest(g, a, k) == Rest(g, b, k)
    ensures Rest(g, a, k + 1) == Rest(g, b, k + 1)
  {
    assert (k + 1) * g.ss == k * g.ss + g.ss;
    assert a[k * g.ss + g.ss..] == Rest(g, a, k)[g.ss..];
    assert b[k * g.ss + g.ss..] == Rest(g, b, k)[g.ss..];
  }

  /** The `k`-th stripe of a buffer. */
  function Piece(g: Geometry, data: seq<Byte>, k: nat): (s: seq<Byte>)
    requires Room(g, data, k + 1)
    ensures |s| == g.ss
  {
    assert (k + 1) * g.ss == k * g.ss + g.ss;
    data[k * g.ss..k * g.ss + g.ss]
  }

  /** The members after the first `n` stripes of `data` were written to stripes `t` to
      `t + n`. */
  function SetStripes(g: Geometry, img: Image, t: nat, n: nat, data: seq<Byte>): (r: Image)
    requires AllInside(g, img, t, n) && Room(g, data, n)
    ensures |r| == |img| && forall m :: 0 <= m < |img| ==> |r[m]| == |img[m]|
  {
    if n == 0 then img
    else
      RoomLess(g, data, n, n - 1);
      assert Inside(g, img, t + n - 1);
      SetStripe(g, SetStripes(g, img, t, n - 1, data), t + n - 1, Piece(g, data, n - 1))
  }

  /** Afterwards the stripes written hold the data and all others what they held. */
  lemma {:induction false} SetStripesStripe(g: Geometry, img: Image, t: nat, n: nat, data: seq<Byte>, u: nat)
    requires AllInside(g, img, t, n) && Room(g, data, n) && Inside(g, img, u)
    ensures Inside(g, SetStripes(g, img, t, n, data), u)
    ensures t <= u < t + n ==> Room(g, data, u - t + 1)
    ensures Stripe(g, SetStripes(g, img, t, n, data), u) ==
      if t <= u < t + n then Piece(g, data, u - t) else Stripe(g, img, u)
  {
    hide Piece, Stripe, SetStripe, Room;
    if n > 0 {
      RoomLess(g, data, n, n - 1);
      SetStripesStripe(g, img, t, n - 1, data, u);
      assert Inside(g, img, t + n - 1);
      SetStripeStripe(g, SetStripes(g, img, t, n - 1, data), t + n - 1, Piece(g, data, n - 1), u);
    }
  }

  /** Writing in one go or in two is the same. */
  lemma {:induction false} SetStripesSplit(g: Geometry, img: Image, t: nat, n: nat, m: nat, data: seq<Byte>)
    requires AllInside(g, img, t, n + m) && Room(g, data, n + m)
    ensures Room(g, data, n) && n * g.ss <= |data| && Room(g, data[n * g.ss..], m)
    ensures AllInside(g, SetStripes(g, img, t, n, data), t + n, m)
    ensures SetStripes(g, img, t, n + m, data) ==
      SetStripes(g, SetStripes(g, img, t, n, data), t + n, m, data[n * g.ss..])
  {
    hide Piece, SetStripe;
    RoomLess(g, data, n + m, n);
    assert (n + m) * g.ss == n * g.ss + m * g.ss;
    var r := SetStripes(g, img, t, n, data);
    forall u | t + n <= u < t + n + m
      ensures Inside(g, r, u)
    {
      assert Inside(g, img, u);
    }
    if m > 0 {
      RoomLess(g, data, n + m, n + m - 1);
      SetStripesSplit(g, img, t, n, m - 1, data);
      PieceShift(g, data, n, m - 1);
    }
  }

  lemma Rows(n: nat, k: nat, ss: nat)
    ensures (n + k) * ss == n * ss + k * ss && (k + 1) * ss == k * ss + ss
    ensures (n + k + 1) * ss == n * ss + k * ss + ss
  {}

  lemma PieceShift(g: Geometry, data: seq<Byte>, n: nat, k: nat)
    requires Room(g, data, n + k + 1)
    ensures n * g.ss <= |data| && Room(g, data[n * g.ss..], k + 1)
    ensures Piece(g, data, n + k) == Piece(g, data[n * g.ss..], k)
  {
    Rows(n, k, g.ss);
    RoomLess(g, data, n + k + 1, n);
  }

  // ---------------------------------------------------------------- chunks

  ghost predicate ChunksInside(g: Geometry, img: Image, start: nat, len: nat) {
    g.Valid() && AllInside(g, img, g.First(start), len * g.Width())
  }

  /** The members after `len` chunks from `start` on were written from `data`. */
  ghost function SetChunks(g: Geometry, img: Image, start: nat, len: nat, data: seq<Byte>): Image
    requires ChunksInside(g, img, start, len) && Room(g, data, len * g.Width())
  {
    SetStripes(g, img, g.First(start), len * g.Width(), data)
  }

  ghost predicate InChunk(g: Geometry, c: nat, u: nat)
    requires g.Valid()
  {
    g.First(c) <= u < g.First(c) + g.Width()
  }

  ghost predicate StripeIs(g: Geometry, img: Image, u: nat, data: seq<Byte>, k: nat) {
    Inside(g, img, u) && Room(g, data, k + 1) && Stripe(g, img, u) == Piece(g, data, k)
  }

  ghost predicate StripeSame(g: Geometry, img: Image, img1: Image, u: nat) {
    Inside(g, img, u) && Inside(g, img1, u) && Stripe(g, img, u) == Stripe(g, img1, u)
  }

  /** Chunk `c` holds the `k`-th chunk of a buffer, stripe by stripe. */
  ghost predicate ChunkIs(g: Geometry, img: Image, c: nat, data: seq<Byte>, k: nat)
    requires g.Valid()
  {
    forall u: nat :: InChunk(g, c, u) ==> StripeIs(g, img, u, data, k * g.Width() + (u - g.First(c)))
  }

  /** Chunk `c` is the same on both. */
  ghost predicate ChunkSame(g: Geometry, img: Image, img1: Image, c: nat)
    requires g.Valid()
  {
    forall u: nat :: InChunk(g, c, u) ==> StripeSame(g, img, img1, u)
  }

  /** A chunk that is written holds its part of the data afterwards. */
  lemma WrittenChunk(g: Geometry, img: Image, start: nat, len: nat, data: seq<Byte>, c: nat)
    requires ChunksInside(g, img, start, len) && Room(g, data, len * g.Width())
    requires start <= c < start + len
    ensures ChunkIs(g, SetChunks(g, img, start, len, data), c, data, c - start)
  {
    hide Piece, Stripe, SetStripes, Inside, Room;
    var k, w := c - start, g.Width();
    FirstAdd(g, start, k);
    MulMono(k + 1, len, w);
    assert (k + 1) * w == k * w + w;
    forall u: nat | InChunk(g, c, u)
      ensures StripeIs(g, SetChunks(g, img, start, len, data), u, data, k * w + (u - g.First(c)))
    {
      assert Inside(g, img, u);
      SetStripesStripe(g, img, g.First(start), len * w, data, u);
      assert u - g.First(start) == k * w + (u - g.First(c));
    }
  }

  /** All other chunks stay what they were. */
  lemma OtherChunk(g: Geometry, img: Image, start: nat, len: nat, data: seq<Byte>, c: nat)
    requires ChunksInside(g, img, start, len) && Room(g, data, len * g.Width())
    requires ChunksInside(g, img, c, 1) && !(start <= c < start + len)
    ensures ChunkSame(g, SetChunks(g, img, start, len, data), img, c)
  {
    hide Piece, Stripe, SetStripes, Inside, Room;
    var w := g.Width();
    FirstAdd(g, start, len);
    if c < start {
      FirstAdd(g, c, start - c);
      MulMono(1, start - c, w);
    } else {
      FirstAdd(g, start + len, c - (start + len));
      MulMono(0, c - (start + len), w);
    }
    forall u: nat | InChunk(g, c, u)
      ensures StripeSame(g, SetChunks(g, img, start, len, data), img, u)
    {
      assert Inside(g, img, u);
      SetStripesStripe(g, img, g.First(start), len * w, data, u);
    }
  }

  /** The first stripe of every member, which holds the volume's label, is never written. */
  lemma HeadersSafe(g: Geometry, img: Image, start: nat, len: nat, data: seq<Byte>, m: nat)
    requires ChunksInside(g, img, start, len) && Room(g, data, len * g.Width())
    requires 0 < start && m < g.nb == |img| && g.ss <= |img[m]|
    ensures SetChunks(g, img, start, len, data)[m][..g.ss] == img[m][..g.ss]
  {
    DivUnique(m, g.nb, 0, m);
    SetStripesStripe(g, img, g.First(start), len * g.Width(), data, m);
    if g.combined { MulMono(1, start, g.nb); }
  }

  /** Two different chunks have no byte in common. */
  lemma ChunksApart(g: Geometry, c: nat, d: nat, i: nat, j: nat, a: nat, b: nat)
    requires g.Valid() && c < d && i < g.Width() && j < g.Width() && a < g.ss && b < g.ss
    ensures g.Member(g.First(c) + i) != g.Member(g.First(d) + j)
      || g.Offset(g.First(c) + i) + a != g.Offset(g.First(d) + j) + b
  {
    FirstAdd(g, c, d - c);
    MulMono(1, d - c, g.Width());
    if g.Member(g.First(c) + i) == g.Member(g.First(d) + j)
      && g.Offset(g.First(c) + i) + a == g.Offset(g.First(d) + j) + b {
      StripesApart(g, g.First(c) + i, g.First(d) + j, a, b);
    }
  }

  /** A transfer of several chunks is the transfers of the single chunks one after the other. */
  lemma ChunkByChunk(g: Geometry, img: Image, start: nat, len: nat, data: seq<Byte>)
    requires ChunksInside(g, img, start, len + 1) && Room(g, data, (len + 1) * g.Width())
    ensures ChunksInside(g, img, start, len) && Room(g, data, len * g.Width())
    ensures len * g.ChunkSize() <= |data|
    ensures var r := SetChunks(g, img, start, len, data);
      && ChunksInside(g, r, start + len, 1) && Room(g, data[len * g.ChunkSize()..], 1 * g.Width())
      && SetChunks(g, img, start, len + 1, data) == SetChunks(g, r, start + len, 1, data[len * g.ChunkSize()..])
  {
    hide Piece, Stripe, SetStripes, Inside;
    var w := g.Width();
    assert (len + 1) * w == len * w + w;
    MulAssoc(len, w, g.ss);
    FirstAdd(g, start, len);
    SetStripesSplit(g, img, g.First(start), len * w, w, data);
    forall u | g.First(start) <= u < g.First(start) + len * w
      ensures Inside(g, img, u)
    {
    }
  }

  /** Chunk `c` alone is written, from the `k`-th chunk of the buffer. */
  ghost predicate WrittenAlone(g: Geometry, img: Image, img1: Image, c: nat, data: seq<Byte>, k: nat) {
    && Bytes(g, k) <= |data| && ChunksInside(g, img, c, 1) && Room(g, data[Bytes(g, k)..], 1 * g.Width())
    && img1 == SetChunks(g, img, c, 1, data[Bytes(g, k)..])
  }

  ghost predicate WrittenUpTo(g: Geometry, img: Image, img1: Image, start: nat, k: nat, data: seq<Byte>) {
    && ChunksInside(g, img, start, k) && Room(g, data, k * g.Width())
    && img1 == SetChunks(g, img, start, k, data)
  }

  lemma OneMore(g: Geometry, img: Image, img1: Image, img2: Image, start: nat, len: nat, data: seq<Byte>)
    requires ChunksInside(g, img, start, len + 1) && Room(g, data, (len + 1) * g.Width())
    requires WrittenUpTo(g, img, img1, start, len, data)
    ensures WrittenAlone(g, img1, img2, start + len, data, len) <==>
      WrittenUpTo(g, img, img2, start, len + 1, data)
  {
    hide Piece, Stripe, SetStripes, Inside, SetChunks;
    ChunkByChunk(g, img, start, len, data);
  }

  /** Writing the chunks of a buffer each in a transfer of its own passes through exactly the
      contents that transfers of more and more chunks give. */
  lemma {:induction false} OneByOne(g: Geometry, imgs: seq<Image>, start: nat, len: nat, data: seq<Byte>)
    requires |imgs| == len + 1 && ChunksInside(g, imgs[0], start, len) && Room(g, data, len * g.Width())
    ensures (forall k :: 0 <= k < len ==> WrittenAlone(g, imgs[k], imgs[k + 1], start + k, data, k)) <==>
      (forall k :: 0 <= k <= len ==> WrittenUpTo(g, imgs[0], imgs[k], start, k, data))
  {
    hide WrittenAlone, WrittenUpTo, SetChunks;
    NoChunks(g, imgs[0], start, data);
    if len > 0 {
      Less(g, imgs[0], start, len, data);
      OneByOne(g, imgs[..len], start, len - 1, data);
      if WrittenUpTo(g, imgs[0], imgs[len - 1], start, len - 1, data) {
        OneMore(g, imgs[0], imgs[len - 1], imgs[len], start, len - 1, data);
      }
    }
  }

  lemma NoChunks(g: Geometry, img: Image, start: nat, data: seq<Byte>)
    requires g.Valid()
    ensures WrittenUpTo(g, img, img, start, 0, data)
  {
  }

  lemma Less(g: Geometry, img: Image, start: nat, len: nat, data: seq<Byte>)
    requires 0 < len && ChunksInside(g, img, start, len) && Room(g, data, len * g.Width())
    ensures ChunksInside(g, img, start, len - 1) && Room(g, data, (len - 1) * g.Width())
  {
    hide Inside;
    MulMono(len - 1, len, g.Width());
    RoomLess(g, data, len * g.Width(), (len - 1) * g.Width());
  }

  lemma MulAssoc(a: nat, b: nat, c: nat)
    ensures a * b * c == a * (b * c)
  {
  }

  // ---------------------------------------------------------------- the tools' transfer

  ghost function View(disks: seq<array<Byte>>): (img: Image)
    reads disks
    ensures |img| == |disks| && forall m :: 0 <= m < |disks| ==> img[m] == disks[m][..]
  {
    seq(|disks|, m requires 0 <= m < |disks| reads disks => disks[m][..])
  }

  ghost predicate Distinct(disks: seq<array<Byte>>) {
    forall i, j :: 0 <= i < j < |disks| ==> disks[i] != disks[j]
  }

  method Copy(dst: array<Byte>, at: nat, src: array<Byte>, off: nat, n: nat)
    requires dst != src && at + n <= dst.Length && off + n <= src.Length
    modifies dst
    ensures dst[..] == Splice(old(dst[..]), at, src[off..off + n])
  {
    ghost var was := dst[..];
    for i := 0 to n
      invariant dst[..] == Splice(was, at, src[off..off + i])
    {
      dst[at + i] := src[off + i];
    }
  }

  method WriteStripe(g: Geometry, disks: seq<array<Byte>>, t: nat, buf: array<Byte>, k: nat)
    requires Distinct(disks) && Inside(g, View(disks), t) && Room(g, buf[..], k + 1) && buf !in disks
    modifies disks[g.Member(t)]
    ensures View(disks) == SetStripe(g, old(View(disks)), t, Piece(g, buf[..], k))
  {
    hide Splice;
    assert (k + 1) * g.ss == k * g.ss + g.ss;
    Copy(disks[g.Member(t)], g.Offset(t), buf, k * g.ss, g.ss);
  }

  method ReadStripe(g: Geometry, disks: seq<array<Byte>>, t: nat, buf: array<Byte>, k: nat)
    requires Inside(g, View(disks), t) && Room(g, buf[..], k + 1) && buf !in disks
    modifies buf
    ensures Piece(g, buf[..], k) == Stripe(g, View(disks), t)
    ensures buf[..k * g.ss] == old(buf[..k * g.ss])
    ensures Rest(g, buf[..], k + 1) == Rest(g, old(buf[..]), k + 1)
  {
    hide Splice;
    Rows(0, k, g.ss);
    ghost var was := buf[..];
    Copy(buf, k * g.ss, disks[g.Member(t)], g.Offset(t), g.ss);
    SpliceParts(was, k * g.ss, Stripe(g, View(disks), t));
  }

  ghost predicate FilledAt(g: Geometry, img: Image, t: nat, data: seq<Byte>, u: nat) {
    t <= u && StripeIs(g, img, u, data, u - t)
  }

  /** The first `n` stripes of the buffer are the stripes from `t` on. */
  ghost predicate Filled(g: Geometry, img: Image, t: nat, n: nat, data: seq<Byte>) {
    forall u: nat :: t <= u < t + n ==> FilledAt(g, img, t, data, u)
  }

  /** Only the first `n` stripes of the data were written. */
  ghost predicate PartlyWritten(g: Geometry, img: Image, img1: Image, t: nat, n: nat, data: seq<Byte>) {
    AllInside(g, img, t, n) && Room(g, data, n) && img1 == SetStripes(g, img, t, n, data)
  }

  /** What lies before stripe `k` of the buffer stays when stripe `k` is filled. */
  lemma PieceKept(g: Geometry, was: seq<Byte>, now: seq<Byte>, k: nat, i: nat)
    requires Room(g, was, k + 1) && |now| == |was| && i < k
    requires k * g.ss <= |was| && now[..k * g.ss] == was[..k * g.ss]
    ensures Room(g, was, i + 1) && Room(g, now, i + 1) && Piece(g, now, i) == Piece(g, was, i)
  {
    RoomLess(g, was, k + 1, i + 1);
    MulMono(i + 1, k, g.ss);
    assert (i + 1) * g.ss == i * g.ss + g.ss;
    SlicePrefix(was, now, k * g.ss, i * g.ss, i * g.ss + g.ss);
  }

  lemma SlicePrefix(was: seq<Byte>, now: seq<Byte>, n: nat, a: nat, b: nat)
    requires n <= |was| && n <= |now| && now[..n] == was[..n] && a <= b <= n
    ensures now[a..b] == was[a..b]
  {
    assert now[a..b] == now[..n][a..b];
    assert was[a..b] == was[..n][a..b];
  }

  lemma FilledMore(g: Geometry, img: Image, t: nat, k: nat, was: seq<Byte>, now: seq<Byte>)
    requires Filled(g, img, t, k, was) && StripeIs(g, img, t + k, now, k)
    requires Room(g, was, k + 1) && |now| == |was|
    requires k * g.ss <= |was| && now[..k * g.ss] == was[..k * g.ss]
    ensures Filled(g, img, t, k + 1, now)
  {
    hide Piece, Stripe, Inside;
    forall u: nat | t <= u < t + k + 1
      ensures FilledAt(g, img, t, now, u)
    {
      if u < t + k {
        assert FilledAt(g, img, t, was, u);
        PieceKept(g, was, now, k, u - t);
      }
    }
  }

  /** A buffer filled from the members holds the chunks in order. */
  lemma FilledChunk(g: Geometry, img: Image, start: nat, len: nat, data: seq<Byte>, c: nat)
    requires g.Valid() && start <= c < start + len
    requires Filled(g, img, g.First(start), len * g.Width(), data)
    ensures ChunkIs(g, img, c, data, c - start)
  {
    hide StripeIs;
    var k, w := c - start, g.Width();
    FirstAdd(g, start, k);
    MulMono(k + 1, len, w);
    assert (k + 1) * w == k * w + w;
    forall u: nat | InChunk(g, c, u)
      ensures StripeIs(g, img, u, data, k * w + (u - g.First(c)))
    {
      assert FilledAt(g, img, g.First(start), data, u);
      assert u - g.First(start) == k * w + (u - g.First(c));
    }
  }

  ghost predicate SamePiece(g: Geometry, a: seq<Byte>, b: seq<Byte>, k: nat) {
    Room(g, a, k + 1) && Room(g, b, k + 1) && Piece(g, a, k) == Piece(g, b, k)
  }

  ghost predicate SamePieces(g: Geometry, a: seq<Byte>, b: seq<Byte>, n: nat) {
    Room(g, a, n) && Room(g, b, n) && forall k: nat :: k < n ==> SamePiece(g, a, b, k)
  }

  lemma {:induction false} SamePrefix(g: Geometry, a: seq<Byte>, b: seq<Byte>, n: nat)
    requires SamePieces(g, a, b, n)
    ensures n * g.ss <= |a| && n * g.ss <= |b| && a[..n * g.ss] == b[..n * g.ss]
  {
    if n > 0 {
      RoomLess(g, a, n, n - 1);
      RoomLess(g, b, n, n - 1);
      SamePrefix(g, a, b, n - 1);
      var x := (n - 1) * g.ss;
      assert n * g.ss == x + g.ss;
      assert SamePiece(g, a, b, n - 1);
      assert a[..n * g.ss] == a[..x] + Piece(g, a, n - 1) && b[..n * g.ss] == b[..x] + Piece(g, b, n - 1);
    }
  }

  /** The size of `len` chunks. */
  function Bytes(g: Geometry, len: nat): nat {
    MulMono(0, len, g.ChunkSize());
    len * g.ChunkSize()
  }

  /** Reading what was written gives the buffer back. */
  lemma ReadBack(g: Geometry, img: Image, start: nat, len: nat, data: seq<Byte>, now: seq<Byte>)
    requires ChunksInside(g, img, start, len) && Room(g, data, len * g.Width()) && Room(g, now, len * g.Width())
    requires Filled(g, SetChunks(g, img, start, len, data), g.First(start), len * g.Width(), now)
    ensures var n := Bytes(g, len); n <= |data| && n <= |now| && now[..n] == data[..n]
  {
    hide Piece, Stripe, SetStripes, Inside, Room;
    var n, t := len * g.Width(), g.First(start);
    MulAssoc(len, g.Width(), g.ss);
    forall k: nat | k < n
      ensures SamePiece(g, now, data, k)
    {
      assert FilledAt(g, SetChunks(g, img, start, len, data), t, now, t + k);
      assert Inside(g, img, t + k);
      SetStripesStripe(g, img, t, n, data, t + k);
    }
    SamePrefix(g, now, data, n);
  }

  /** Transfers one stripe, the `k`-th of the buffer. */
  method SyncStripe(g: Geometry, disks: seq<array<Byte>>, startS: nat, k: nat, ghost n: nat, owrite: bool,
                    buf: array<Byte>, ghost img: Image)
    requires g.Valid() && Distinct(disks) && buf !in disks && |disks| == |img| == g.nb
    requires k < n && AllInside(g, img, startS, n) && Room(g, buf[..], n)
    requires if owrite then PartlyWritten(g, img, View(disks), startS, k, buf[..])
      else View(disks) == img && Filled(g, img, startS, k, buf[..])
    modifies buf, disks
    ensures |buf[..]| == |old(buf[..])|
    ensures if owrite then buf[..] == old(buf[..]) else View(disks) == old(View(disks))
    ensures if owrite then PartlyWritten(g, img, View(disks), startS, k + 1, buf[..])
      else Filled(g, img, startS, k + 1, buf[..])
    ensures Room(g, buf[..], k + 1) && Room(g, old(buf[..]), k + 1)
    ensures Rest(g, buf[..], k + 1) == Rest(g, old(buf[..]), k + 1)
  {
    hide Piece, Stripe, SetStripe, Inside;
    RoomLess(g, buf[..], n, k + 1);
    var strp := startS + k;
    assert Inside(g, img, strp);
    assert disks[g.Member(strp)] in disks;
    ghost var was := buf[..];
    if owrite {
      SetStripesStripe(g, img, startS, k, buf[..], strp);
      WriteStripe(g, disks, strp, buf, k);
    } else {
      ReadStripe(g, disks, strp, buf, k);
      assert (k + 1) * g.ss == k * g.ss + g.ss;
      FilledMore(g, img, startS, k, was, buf[..]);
    }
  }

  lemma NothingDone(g: Geometry, img: Image, t: nat, data: seq<Byte>)
    requires g.Valid()
    ensures PartlyWritten(g, img, img, t, 0, data) && Filled(g, img, t, 0, data)
  {
  }

  lemma RoomSame(g: Geometry, was: seq<Byte>, now: seq<Byte>, n: nat)
    requires Room(g, was, n) && |was| == |now|
    ensures Room(g, now, n)
  {
  }

  /** What a transfer of `len` chunks leaves on the members and in the buffer. */
  ghost predicate Moved(g: Geometry, owrite: bool, start: nat, len: nat, img: Image, data: seq<Byte>,
                        img1: Image, data1: seq<Byte>)
    requires ChunksInside(g, img, start, len) && Room(g, data, len * g.Width())
  {
    if owrite then
      img1 == SetChunks(g, img, start, len, data) && data1 == data
    else
      && img1 == img && |data1| == |data| && Filled(g, img, g.First(start), len * g.Width(), data1)
      && Rest(g, data1, len * g.Width()) == Rest(g, data, len * g.Width())
  }

  /** `sync_io_chunk`: transfers `len` chunks between the members and the buffer. Transfer number
      `failing`, if it is reached, fails; what was transferred before stays. */
  method SyncIoChunk(g: Geometry, disks: seq<array<Byte>>, start: nat, len: nat, owrite: bool, buf: array<Byte>,
                     failing: nat)
      returns (ok: bool, ghost done: nat)
    requires 0 < start && |disks| == g.nb && Distinct(disks) && buf !in disks
    requires ChunksInside(g, View(disks), start, len) && Room(g, buf[..], len * g.Width())
    modifies buf, disks
    ensures if owrite then buf[..] == old(buf[..]) else View(disks) == old(View(disks))
    ensures ok <==> len * g.Width() <= failing
    ensures done == if ok then len * g.Width() else failing
    ensures owrite ==> PartlyWritten(g, old(View(disks)), View(disks), g.First(start), done, buf[..])
    ensures !owrite ==> Filled(g, View(disks), g.First(start), done, buf[..])
    ensures ok ==> Moved(g, owrite, start, len, old(View(disks)), old(buf[..]), View(disks), buf[..])
  {
    hide Inside, Stripe, SetStripes;
    hide Room, Filled, PartlyWritten, AllInside, Rest;
    var startS, endS := g.First(start), g.First(start + len);
    FirstAdd(g, start, len);
    ghost var img, data, n := View(disks), buf[..], len * g.Width();
    NothingDone(g, img, startS, buf[..]);
    done := 0;
    var strp, k: nat := startS, 0;
    RoomLess(g, data, n, 0);
    while strp < endS
      invariant done == k <= n && k <= failing && strp == startS + k
      invariant Room(g, buf[..], n) && |buf[..]| == |data| && Room(g, buf[..], k) && Room(g, data, k)
      invariant Rest(g, buf[..], k) == Rest(g, data, k)
      invariant if owrite then buf[..] == data else View(disks) == img
      invariant owrite ==> PartlyWritten(g, img, View(disks), startS, k, buf[..])
      invariant !owrite ==> Filled(g, img, startS, k, buf[..])
    {
      if k == failing { return false, done; }
      ghost var was := buf[..];
      SyncStripe(g, disks, startS, k, n, owrite, buf, img);
      RoomSame(g, was, buf[..], n);
      RoomSame(g, was, data, k + 1);
      RestLess(g, was, data, k);
      strp, k, done := strp + 1, k + 1, done + 1;
    }
    ok := true;
    AllWritten(g, img, View(disks), start, len, buf[..]);
  }

  lemma AllWritten(g: Geometry, img: Image, img1: Image, start: nat, len: nat, data: seq<Byte>)
    requires ChunksInside(g, img, start, len) && Room(g, data, len * g.Width())
    ensures PartlyWritten(g, img, img1, g.First(start), len * g.Width(), data) <==>
      img1 == SetChunks(g, img, start, len, data)
  {
  }
}
