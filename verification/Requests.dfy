/** Transfers as sequences of requests to the members, completed in any order. */
module Requests {
  import opened Types
  import opened Arith
  import opened Striping

  /** A transfer between a member and a buffer. */
  datatype Request = Request(member: nat, offset: nat, len: nat, at: nat)

  /** The members and the buffer. */
  datatype Store = Store(img: Image, data: seq<Byte>)

  ghost predicate Fits(r: Request, s: Store) {
    r.member < |s.img| && r.offset + r.len <= |s.img[r.member]| && r.at + r.len <= |s.data|
  }

  /** Carrying out one request. A request beyond the member or the buffer transfers nothing. */
  ghost function Perform(owrite: bool, r: Request, s: Store): Store {
    if !Fits(r, s) then
      s
    else if owrite then
      s.(img := s.img[r.member := Splice(s.img[r.member], r.offset, s.data[r.at..r.at + r.len])])
    else
      s.(data := Splice(s.data, r.at, s.img[r.member][r.offset..r.offset + r.len]))
  }

  ghost function PerformAll(owrite: bool, reqs: seq<Request>, s: Store): Store {
    if reqs == [] then s else Perform(owrite, reqs[|reqs| - 1], PerformAll(owrite, reqs[..|reqs| - 1], s))
  }

  // ---------------------------------------------------------------- the order does not matter

  /** Neither request touches what the other changes: a write changes its member, a read
      changes the buffer. */
  ghost predicate Independent(owrite: bool, a: Request, b: Request) {
    if owrite then
      a.member != b.member || a.offset + a.len <= b.offset || b.offset + b.len <= a.offset
    else
      a.at + a.len <= b.at || b.at + b.len <= a.at
  }

  ghost predicate AllIndependent(owrite: bool, reqs: seq<Request>) {
    forall i, j :: 0 <= i < j < |reqs| ==> Independent(owrite, reqs[i], reqs[j])
  }

  lemma SplicesCommute(d: seq<Byte>, b: nat, s: seq<Byte>, c: nat, t: seq<Byte>)
    requires b + |s| <= |d| && c + |t| <= |d|
    requires b + |s| <= c || c + |t| <= b
    ensures Splice(Splice(d, b, s), c, t) == Splice(Splice(d, c, t), b, s)
  {
  }

  lemma Commute(owrite: bool, a: Request, b: Request, s: Store)
    requires Independent(owrite, a, b)
    ensures Perform(owrite, a, Perform(owrite, b, s)) == Perform(owrite, b, Perform(owrite, a, s))
  {
    hide Splice;
    if Fits(a, s) && Fits(b, s) {
      if !owrite {
        SplicesCommute(s.data, a.at, s.img[a.member][a.offset..a.offset + a.len],
          b.at, s.img[b.member][b.offset..b.offset + b.len]);
      } else if a.member == b.member {
        SplicesCommute(s.img[a.member], a.offset, s.data[a.at..a.at + a.len],
          b.offset, s.data[b.at..b.at + b.len]);
      }
    }
  }

  /** Any request of a sequence may as well come last. */
  lemma {:induction false} Postpone(owrite: bool, reqs: seq<Request>, i: nat, s: Store)
    requires i < |reqs| && AllIndependent(owrite, reqs)
    ensures PerformAll(owrite, reqs, s) ==
      Perform(owrite, reqs[i], PerformAll(owrite, reqs[..i] + reqs[i + 1..], s))
  {
    hide Perform, Independent;
    var n := |reqs| - 1;
    if i == n {
      assert reqs[..i] + reqs[i + 1..] == reqs[..n];
    } else {
      var short := reqs[..n];
      Postpone(owrite, short, i, s);
      var rest := reqs[..i] + reqs[i + 1..];
      assert rest[..|rest| - 1] == short[..i] + short[i + 1..];
      Commute(owrite, reqs[i], reqs[n], PerformAll(owrite, short[..i] + short[i + 1..], s));
    }
  }

  lemma Without(owrite: bool, reqs: seq<Request>, i: nat)
    requires i < |reqs|
    ensures multiset(reqs[..i] + reqs[i + 1..]) == multiset(reqs) - multiset{reqs[i]}
    ensures AllIndependent(owrite, reqs) ==> AllIndependent(owrite, reqs[..i] + reqs[i + 1..])
  {
    hide Independent;
    assert reqs == reqs[..i] + [reqs[i]] + reqs[i + 1..];
  }

  lemma LastOne(owrite: bool, done: seq<Request>, s: Store)
    requires done != []
    ensures var n := |done| - 1;
      && multiset(done[..n]) == multiset(done) - multiset{done[n]}
      && PerformAll(owrite, done, s) == Perform(owrite, done[n], PerformAll(owrite, done[..n], s))
  {
    assert done == done[..|done| - 1] + [done[|done| - 1]];
  }

  /** Independent requests may complete in any order. */
  lemma {:induction false} AnyOrder(owrite: bool, reqs: seq<Request>, done: seq<Request>, s: Store)
    requires AllIndependent(owrite, reqs) && multiset(done) == multiset(reqs)
    ensures PerformAll(owrite, done, s) == PerformAll(owrite, reqs, s)
    decreases |done|
  {
    hide Perform, PerformAll, AllIndependent;
    if done == [] {
      assert |multiset(reqs)| == 0;
      assert reqs == [];
    } else {
      LastOne(owrite, done, s);
      var last := done[|done| - 1];
      assert last in multiset(done);
      var i :| 0 <= i < |reqs| && reqs[i] == last;
      Without(owrite, reqs, i);
      Postpone(owrite, reqs, i, s);
      AnyOrder(owrite, reqs[..i] + reqs[i + 1..], done[..|done| - 1], s);
    }
  }

  // ---------------------------------------------------------------- the requests of a transfer

  /** The `i`-th request of a transfer from stripe `t` on. */
  ghost function Item(g: Geometry, t: nat, i: nat): Request
    requires g.Valid()
  {
    Request(g.Member(t + i), g.Offset(t + i), g.ss, i * g.ss)
  }

  /** The requests for `n` stripes from `t` on, in the order of the buffer. */
  ghost function Stripes(g: Geometry, t: nat, n: nat): (r: seq<Request>)
    requires g.Valid()
    ensures |r| == n && forall i :: 0 <= i < n ==> r[i] == Item(g, t, i)
  {
    seq(n, i requires 0 <= i < n => Item(g, t, i))
  }

  /** The requests of a transfer of `len` chunks from `start` on. */
  ghost function Plan(g: Geometry, start: nat, len: nat): seq<Request>
    requires g.Valid()
  {
    Stripes(g, g.First(start), len * g.Width())
  }

  lemma ItemsIndependent(g: Geometry, t: nat, i: nat, j: nat, owrite: bool)
    requires g.Valid() && i < j
    ensures Independent(owrite, Item(g, t, i), Item(g, t, j))
  {
    assert (i + 1) * g.ss == i * g.ss + g.ss;
    MulMono(i + 1, j, g.ss);
    if g.Member(t + i) == g.Member(t + j) { StripesDisjoint(g, t + i, t + j); }
  }

  lemma StripesIndependent(g: Geometry, t: nat, n: nat, owrite: bool)
    requires g.Valid()
    ensures AllIndependent(owrite, Stripes(g, t, n))
  {
    hide Item, Independent;
    forall i, j | 0 <= i < j < n
      ensures Independent(owrite, Stripes(g, t, n)[i], Stripes(g, t, n)[j])
    {
      ItemsIndependent(g, t, i, j, owrite);
    }
  }

  lemma StripesLess(g: Geometry, t: nat, n: nat)
    requires g.Valid() && 0 < n
    ensures Stripes(g, t, n)[..n - 1] == Stripes(g, t, n - 1)
  {
  }

  lemma ItemFits(g: Geometry, t: nat, i: nat, s: Store)
    requires g.Valid() && Inside(g, s.img, t + i) && Room(g, s.data, i + 1)
    ensures Fits(Item(g, t, i), s)
  {
    assert (i + 1) * g.ss == i * g.ss + g.ss;
  }

  /** Writing a stripe is its request. */
  lemma WriteItem(g: Geometry, t: nat, i: nat, s: Store)
    requires g.Valid() && Inside(g, s.img, t + i) && Room(g, s.data, i + 1)
    ensures Perform(true, Item(g, t, i), s) == Store(SetStripe(g, s.img, t + i, Piece(g, s.data, i)), s.data)
  {
    ItemFits(g, t, i, s);
  }

  lemma ReadItem(g: Geometry, t: nat, i: nat, s: Store)
    requires g.Valid() && Inside(g, s.img, t + i) && Room(g, s.data, i + 1)
    ensures var r := Perform(false, Item(g, t, i), s);
      && r.img == s.img && |r.data| == |s.data| && StripeIs(g, s.img, t + i, r.data, i)
      && i * g.ss <= |s.data| && r.data[..i * g.ss] == s.data[..i * g.ss]
      && Rest(g, r.data, i + 1) == Rest(g, s.data, i + 1)
  {
    ItemFits(g, t, i, s);
    assert (i + 1) * g.ss == i * g.ss + g.ss;
  }

  lemma {:induction false} WriteStripes(g: Geometry, t: nat, n: nat, s: Store)
    requires g.Valid() && AllInside(g, s.img, t, n) && Room(g, s.data, n)
    ensures PerformAll(true, Stripes(g, t, n), s) == Store(SetStripes(g, s.img, t, n, s.data), s.data)
  {
    hide Perform, Item, Piece, SetStripe, Inside, Room;
    if n > 0 {
      RoomLess(g, s.data, n, n - 1);
      StripesLess(g, t, n);
      WriteStripes(g, t, n - 1, s);
      assert Inside(g, s.img, t + n - 1);
      SetStripesStripe(g, s.img, t, n - 1, s.data, t + n - 1);
      WriteItem(g, t, n - 1, PerformAll(true, Stripes(g, t, n - 1), s));
    }
  }

  lemma {:induction false} ReadStripes(g: Geometry, t: nat, n: nat, s: Store)
    requires g.Valid() && AllInside(g, s.img, t, n) && Room(g, s.data, n)
    ensures var r := PerformAll(false, Stripes(g, t, n), s);
      && r.img == s.img && |r.data| == |s.data| && Filled(g, s.img, t, n, r.data)
      && Room(g, r.data, n) && Rest(g, r.data, n) == Rest(g, s.data, n)
  {
    hide Perform, Item, Inside, Room, Rest, Filled, StripeIs;
    if n == 0 {
      NothingDone(g, s.img, t, s.data);
    } else {
      RoomLess(g, s.data, n, n - 1);
      StripesLess(g, t, n);
      ReadStripes(g, t, n - 1, s);
      var before := PerformAll(false, Stripes(g, t, n - 1), s);
      assert Inside(g, s.img, t + n - 1);
      RoomSame(g, s.data, before.data, n);
      ReadItem(g, t, n - 1, before);
      var after := Perform(false, Item(g, t, n - 1), before);
      RoomSame(g, s.data, after.data, n);
      FilledMore(g, s.img, t, n - 1, before.data, after.data);
      RestLess(g, before.data, s.data, n - 1);
    }
  }

  // ---------------------------------------------------------------- kernel and tools

  /** In whatever order the requests complete, they move the `len` chunks from `start` on. */
  ghost predicate Transfers(g: Geometry, start: nat, len: nat, reqs: seq<Request>) {
    forall owrite: bool, s: Store, done: seq<Request> ::
      ChunksInside(g, s.img, start, len) && Room(g, s.data, len * g.Width()) && multiset(done) == multiset(reqs)
      ==> MovedTo(g, owrite, start, len, s, PerformAll(owrite, done, s))
  }

  ghost predicate MovedTo(g: Geometry, owrite: bool, start: nat, len: nat, s: Store, r: Store)
    requires ChunksInside(g, s.img, start, len) && Room(g, s.data, len * g.Width())
  {
    Moved(g, owrite, start, len, s.img, s.data, r.img, r.data)
  }

  lemma PlanMoves(g: Geometry, start: nat, len: nat, owrite: bool, s: Store, done: seq<Request>)
    requires ChunksInside(g, s.img, start, len) && Room(g, s.data, len * g.Width())
    requires multiset(done) == multiset(Plan(g, start, len))
    ensures MovedTo(g, owrite, start, len, s, PerformAll(owrite, done, s))
  {
    hide Item, PerformAll, Room, Rest, Filled, AllInside, AllIndependent;
    StripesIndependent(g, g.First(start), len * g.Width(), owrite);
    AnyOrder(owrite, Plan(g, start, len), done, s);
    if owrite {
      WriteStripes(g, g.First(start), len * g.Width(), s);
    } else {
      ReadStripes(g, g.First(start), len * g.Width(), s);
    }
  }

  /** The plan of a transfer performs it. */
  lemma PlanTransfers(g: Geometry, start: nat, len: nat)
    requires g.Valid()
    ensures Transfers(g, start, len, Plan(g, start, len))
  {
    hide PerformAll, ChunksInside, Room, MovedTo, Plan;
    forall owrite: bool, s: Store, done: seq<Request> |
      ChunksInside(g, s.img, start, len) && Room(g, s.data, len * g.Width())
      && multiset(done) == multiset(Plan(g, start, len))
      ensures MovedTo(g, owrite, start, len, s, PerformAll(owrite, done, s))
    {
      PlanMoves(g, start, len, owrite, s, done);
    }
  }

  /** What a transfer leaves is determined, byte by byte. */
  lemma MovedOnce(g: Geometry, owrite: bool, start: nat, len: nat, s: Store, a: Store, b: Store)
    requires ChunksInside(g, s.img, start, len) && Room(g, s.data, len * g.Width())
    requires MovedTo(g, owrite, start, len, s, a) && MovedTo(g, owrite, start, len, s, b)
    ensures a == b
  {
    hide Piece, Stripe, Inside, Room, AllInside;
    if !owrite {
      var n, t := len * g.Width(), g.First(start);
      RoomSame(g, s.data, a.data, n);
      RoomSame(g, s.data, b.data, n);
      forall k: nat | k < n
        ensures SamePiece(g, a.data, b.data, k)
      {
        assert FilledAt(g, s.img, t, a.data, t + k) && FilledAt(g, s.img, t, b.data, t + k);
      }
      SamePrefix(g, a.data, b.data, n);
      assert a.data == a.data[..n * g.ss] + Rest(g, a.data, n);
      assert b.data == b.data[..n * g.ss] + Rest(g, b.data, n);
    }
  }

  /** A completed transfer of the tools and the kernel's requests, completed in any order,
      agree on every byte of the members and of the buffer. */
  lemma KernelMeetsTools(g: Geometry, owrite: bool, start: nat, len: nat, s: Store, tools: Store,
                         reqs: seq<Request>, done: seq<Request>)
    requires ChunksInside(g, s.img, start, len) && Room(g, s.data, len * g.Width())
    requires Moved(g, owrite, start, len, s.img, s.data, tools.img, tools.data)
    requires Transfers(g, start, len, reqs) && multiset(done) == multiset(reqs)
    ensures PerformAll(owrite, done, s) == tools
  {
    hide PerformAll, ChunksInside, Room, Moved;
    MovedOnce(g, owrite, start, len, s, tools, PerformAll(owrite, done, s));
  }
}
