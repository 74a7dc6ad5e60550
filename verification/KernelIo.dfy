/** How the kernel sets up the transfer of chunks, in sectors of each member. */
module KernelIo {
  import opened Arith
  import Aio
  import Bits
  import opened Striping
  import opened Requests

  /** The checks of `load_vol_cconf` and `shfs_checkopen_blkdev`: stripes and sectors are
      powers of two, in these ranges. */
  ghost predicate SectorsOk(g: Geometry, ssize: seq<nat>) {
    && g.Valid() && |ssize| == g.nb
    && 4096 <= g.ss <= 32768 && (exists b: nat :: g.ss == Bits.Pow2(b))
    && forall m :: 0 <= m < g.nb ==> 512 <= ssize[m] <= 4096 && exists a: nat :: ssize[m] == Bits.Pow2(a)
  }

  /** Then a stripe is a whole number of sectors. */
  lemma StripeOfSectors(g: Geometry, ssize: seq<nat>, m: nat)
    requires SectorsOk(g, ssize) && m < g.nb
    ensures 0 < g.ss / ssize[m] && g.ss / ssize[m] * ssize[m] == g.ss
  {
    var a: nat :| ssize[m] == Bits.Pow2(a);
    var b: nat :| g.ss == Bits.Pow2(b);
    if b < a { Bits.Pow2Mono(b + 1, a); }
    Bits.Pow2Sum(a, b - a);
    DivUnique(g.ss, ssize[m], Bits.Pow2(b - a), 0);
  }

  lemma SectorBytes(row: nat, sfactor: nat, ssize: nat, ss: nat)
    requires sfactor * ssize == ss
    ensures row * sfactor * ssize == row * ss
  {
    MulAssoc(row, sfactor, ssize);
  }

  /** The request for one stripe, in sectors of its member. */
  method AioRequest(g: Geometry, ssize: seq<nat>, strp: nat, ptr: nat) returns (r: Request)
    requires g.Valid() && |ssize| == g.nb && SectorsOk(g, ssize)
    ensures r == Request(g.Member(strp), g.Offset(strp), g.ss, ptr)
  {
    hide SectorsOk;
    var m := g.Member(strp);
    StripeOfSectors(g, ssize, m);
    var sfactor := g.ss / ssize[m];
    var startSec := strp / g.nb * sfactor;
    SectorBytes(strp / g.nb, sfactor, ssize[m], g.ss);
    r := Request(m, startSec * ssize[m], sfactor * ssize[m], ptr);
  }

  lemma IsItem(g: Geometry, t: nat, k: nat)
    requires g.Valid()
    ensures Item(g, t, k) == Request(g.Member(t + k), g.Offset(t + k), g.ss, k * g.ss)
  {
  }

  /** The request setup of `shfs_aio_chunk`, in sectors of each member. */
  method AioRequests(g: Geometry, ssize: seq<nat>, start: nat, len: nat) returns (reqs: seq<Request>)
    requires g.Valid() && |ssize| == g.nb && SectorsOk(g, ssize)
    ensures reqs == Plan(g, start, len) && Transfers(g, start, len, reqs)
  {
    hide SectorsOk, Item, Transfers;
    var startS, endS := g.First(start), g.First(start + len);
    FirstAdd(g, start, len);
    reqs := [];
    var ptr, strp: nat := 0, startS;
    ghost var k: nat := 0;
    ghost var plan := Plan(g, start, len);
    while strp < endS
      invariant strp == startS + k && k <= |plan| && ptr == k * g.ss
      invariant reqs == plan[..k]
    {
      var r := AioRequest(g, ssize, strp, ptr);
      IsItem(g, startS, k);
      reqs := reqs + [r];
      assert (k + 1) * g.ss == k * g.ss + g.ss;
      ptr, strp, k := ptr + g.ss, strp + 1, k + 1;
    }
    PlanTransfers(g, start, len);
  }

  // ---------------------------------------------------------------- the synchronous transfer

  /** What the devices did until all requests were completed, `done` in that order: a request that
      did not fail was carried out, one that failed may have left anything. */
  ghost predicate Delivered(owrite: bool, log: seq<Aio.Event>, done: seq<Request>, stores: seq<Store>) {
    && Aio.SetUp(log, |done|) && |log| == 2 * |done| && |stores| == |done| + 1
    && forall k :: 0 <= k < |done| && 0 <= log[|done| + k].ret ==>
         stores[k + 1] == Perform(owrite, done[k], stores[k])
  }

  lemma {:induction false} AllCarriedOut(owrite: bool, log: seq<Aio.Event>, done: seq<Request>, stores: seq<Store>,
                                         k: nat)
    requires Delivered(owrite, log, done, stores) && k <= |done|
    requires forall j :: |done| <= j < |log| ==> 0 <= log[j].ret
    ensures stores[k] == PerformAll(owrite, done[..k], stores[0])
  {
    hide Perform;
    if k > 0 {
      AllCarriedOut(owrite, log, done, stores, k - 1);
      assert done[..k][..k - 1] == done[..k - 1];
    }
  }

  /** If the last error of the token is 0, as when `shfs_io_chunk` returns 0, the chunks asked for
      were moved. */
  lemma ZeroMoves(g: Geometry, owrite: bool, start: nat, len: nat, reqs: seq<Request>,
                  log: seq<Aio.Event>, done: seq<Request>, stores: seq<Store>)
    requires Transfers(g, start, len, reqs) && multiset(done) == multiset(reqs)
    requires Delivered(owrite, log, done, stores) && Aio.LastError(log) == 0
    requires ChunksInside(g, stores[0].img, start, len) && Room(g, stores[0].data, len * g.Width())
    ensures MovedTo(g, owrite, start, len, stores[0], stores[|done|])
  {
    hide PerformAll, ChunksInside, Room, MovedTo, Perform;
    Aio.LastErrorExact(log);
    AllCarriedOut(owrite, log, done, stores, |done|);
    assert done[..|done|] == done;
  }

  /** Every way in which the devices can have completed the requests moved the chunks. */
  ghost predicate Moves(g: Geometry, start: nat, len: nat, reqs: seq<Request>, log: seq<Aio.Event>) {
    forall owrite: bool, done: seq<Request>, stores: seq<Store> ::
      Delivered(owrite, log, done, stores) && multiset(done) == multiset(reqs)
      && ChunksInside(g, stores[0].img, start, len) && Room(g, stores[0].data, len * g.Width())
      ==> MovedTo(g, owrite, start, len, stores[0], stores[|done|])
  }

  /** `shfs_io_chunk` with the requests that it sets up: if it returns 0, the chunks were moved. */
  method IoChunk(vol: Aio.Volume, g: Geometry, ssize: seq<nat>, start: nat, len: nat,
                 answers: nat -> Aio.Attempt, results: nat -> int, patience: nat)
      returns (ret: int, reqs: seq<Request>, ghost log: seq<Aio.Event>)
    requires g.Valid() && |ssize| == g.nb && SectorsOk(g, ssize)
    modifies vol`free
    ensures vol.free == old(vol.free) && ret <= 0
    ensures ret == 0 ==> |log| == 2 * |reqs| && Moves(g, start, len, reqs, log)
  {
    hide SectorsOk, Transfers, Plan, MovedTo, ChunksInside, Room;
    reqs := AioRequests(g, ssize, start, len);
    var tries;
    ret, tries, log := vol.IoChunk(|reqs|, answers, results, patience);
    if ret == 0 {
      forall owrite: bool, done: seq<Request>, stores: seq<Store> |
        Delivered(owrite, log, done, stores) && multiset(done) == multiset(reqs)
        && ChunksInside(g, stores[0].img, start, len) && Room(g, stores[0].data, len * g.Width())
        ensures MovedTo(g, owrite, start, len, stores[0], stores[|done|])
      {
        ZeroMoves(g, owrite, start, len, reqs, log, done, stores);
      }
    }
  }
}
