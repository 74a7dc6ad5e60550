/** Which chunks a request brings into the cache, and which it drives out. */
module CacheWindow {
  import opened Types
  import opened Seqs
  import opened CacheSpec
  import opened CacheInv
  import opened CacheRuns

  /** Entry `j` has chunk `a`. */
  ghost predicate Has(s: State, a: nat, j: nat) {
    j < |s.entries| && j !in s.free && s.entries[j].addr == a
  }

  /** The request of an entry for chunk `a` is over. */
  ghost predicate HasIdle(s: State, a: nat, j: nat) {
    Has(s, a, j) && s.entries[j].t.None?
  }

  // ---------------------------------------------------------------- what comes in

  /** What getting a chunk changes: one buffer at most, which then has that chunk in flight or is in
      the pool. */
  lemma ObtainChanges(v: Vol, s: State, addr: nat, dev: nat -> nat, h: nat) returns (x: nat)
    requires Held(v, s, h) && 0 < addr
    ensures var (s1, got) := Obtain(v, s, addr, dev);
      && |s1.entries| == |s.entries|
      && (forall j :: 0 <= j < |s.entries| && j != x ==>
            s1.entries[j] == s.entries[j] && (j in s1.free <==> j in s.free))
      && (got.Some? ==> |s.free| <= |s1.free| + 1)
      && (if x < |s.entries| then
            && Find(v, s, addr).None? && (got.Some? <==> dev(addr) == 0)
            && (if got.Some? then got == Some(x) && Has(s1, addr, x) && s1.entries[x].t.Some? else x in s1.free)
            && (s.free != [] ==> x in s.free) && (s.free == [] ==> Take(v, s).1 == Some(x))
          else s1 == s && (got.Some? <==> Find(v, s, addr).Some?) && (got.None? ==> NoBuffer(s)))
  {
    var (s1, got) := Take(v, s);
    FindExact(v, s, addr, h);
    hide Find;
    if Find(v, s, addr).Some? || got.None? {
      x := |s.entries|;
      TakeExact(v, s);
    } else {
      x := got.value;
      if s.free != [] {
        assert s.free[0] in s.free;
        assert NoDup(s.free);
        assert forall j :: j in s.free <==> j == s.free[0] || j in s.free[1..];
      }
    }
  }

  /** Only the chunks from `addr + i` up to the end of the window can be new. */
  lemma {:induction false} ReadAheadBrings(v: Vol, s: State, addr: nat, i: nat, dev: nat -> nat, h: nat, a: nat, j: nat)
    requires Held(v, s, h) && h < |s.entries| && 0 < i && a != 0
    ensures var s1 := ReadAhead(v, s, addr, i, dev);
      && (Has(s1, a, j) ==> Has(s, a, j) || (addr + i <= a <= addr + READAHEAD && a < v.volsize))
      && (HasIdle(s1, a, j) ==> HasIdle(s, a, j) && s1.entries[j] == s.entries[j])
    decreases READAHEAD + 1 - i
  {
    hide Obtain, EntryOk, Unique, Lists, Counts, Find;
    if i <= READAHEAD && addr + i < v.volsize {
      var x := ObtainChanges(v, s, addr + i, dev, h);
      ObtainInv(v, s, addr + i, dev, h);
      var (s1, got) := Obtain(v, s, addr + i, dev);
      if got.Some? { ReadAheadBrings(v, s1, addr, i + 1, dev, h, a, j); }
    }
  }

  /** A request brings in its chunk and the chunks read ahead, and no others; and no entry whose
      request is over comes up by it. */
  lemma RequestBrings(v: Vol, s: State, addr: nat, dev: nat -> nat, tokenOk: bool, a: nat, j: nat)
    requires Good(v, s) && a != 0
    ensures var s1 := Aread(v, s, addr, dev, tokenOk).0;
      && (Has(s1, a, j) ==> Has(s, a, j) || a == addr || (addr < a <= addr + READAHEAD && a < v.volsize))
      && (HasIdle(s1, a, j) ==> HasIdle(s, a, j) && s1.entries[j].invalid == s.entries[j].invalid)
  {
    hide Obtain, Ref, ReadAhead, Answer, EntryOk, Unique, Lists, Counts, Find;
    if v.mounted && 0 < addr <= v.volsize {
      var none := |s.entries|;
      var x := ObtainChanges(v, s, addr, dev, none);
      ObtainInv(v, s, addr, dev, none);
      var (s1, got) := Obtain(v, s, addr, dev);
      if got.Some? {
        var i := got.value;
        RefInv(v, s1, i);
        RefOnly(v, s1, i);
        var s2 := Ref(v, s1, i);
        ReadAheadBrings(v, s2, addr, 1, dev, i, a, j);
        AnswerOnly(v, ReadAhead(v, s2, addr, 1, dev), i, addr, tokenOk);
      }
    }
  }

  lemma RefOnly(v: Vol, s: State, i: nat)
    requires Ranged(v, s) && i < |s.entries|
    ensures var s1 := Ref(v, s, i); s1.free == s.free && forall j :: 0 <= j < |s.entries| ==>
        s1.entries[j] == s.entries[j].(refcount := s1.entries[j].refcount)
  {}

  lemma AnswerOnly(v: Vol, s: State, i: nat, addr: nat, tokenOk: bool)
    requires Ranged(v, s) && i < |s.entries|
    ensures var s1 := Answer(v, s, i, addr, tokenOk).0;
      && |s1.entries| == |s.entries| && s1.free == s.free
      && forall j :: 0 <= j < |s.entries| ==>
        s1.entries[j] == s.entries[j].(refcount := s1.entries[j].refcount, chain := s1.entries[j].chain)
  {}

  // ---------------------------------------------------------------- what is sure to come in

  ghost predicate Cached(s: State, a: nat) {
    exists j :: Has(s, a, j)
  }

  ghost predicate AllKept(s: State, s1: State, a: nat) {
    forall j :: Has(s, a, j) ==> Has(s1, a, j)
  }

  lemma {:induction false} ReadAheadCovers(v: Vol, s: State, addr: nat, i: nat, dev: nat -> nat, h: nat, a: nat)
    requires Held(v, s, h) && h < |s.entries| && 0 < i <= READAHEAD + 1 && READAHEAD + 1 - i <= |s.free|
    requires forall b :: dev(b) == 0
    ensures var s1 := ReadAhead(v, s, addr, i, dev);
      (addr + i <= a <= addr + READAHEAD && a < v.volsize ==> Cached(s1, a)) && AllKept(s, s1, a)
    decreases READAHEAD + 1 - i
  {
    hide Obtain, EntryOk, Unique, Lists, Counts;
    if i <= READAHEAD && addr + i < v.volsize {
      ObtainCovers(v, s, addr + i, dev, h, a);
      ObtainInv(v, s, addr + i, dev, h);
      ReadAheadCovers(v, Obtain(v, s, addr + i, dev).0, addr, i + 1, dev, h, a);
    }
  }

  lemma ObtainCovers(v: Vol, s: State, addr: nat, dev: nat -> nat, h: nat, a: nat)
    requires Held(v, s, h) && 0 < addr && s.free != [] && dev(addr) == 0
    ensures var (s1, got) := Obtain(v, s, addr, dev);
      && got.Some? && Has(s1, addr, got.value) && Cached(s1, addr) && |s.free| <= |s1.free| + 1 && AllKept(s, s1, a)
  {
    hide Obtain;
    var x := ObtainChanges(v, s, addr, dev, h);
    FindExact(v, s, addr, h);
    hide EntryOk, Unique, Lists, Counts, Find;
    var (s1, got) := Obtain(v, s, addr, dev);
    if Find(v, s, addr).Some? { ObtainFound(v, s, addr, dev); }
    assert Has(s1, addr, got.value);
  }

  lemma ObtainFound(v: Vol, s: State, addr: nat, dev: nat -> nat)
    requires Ranged(v, s) && Find(v, s, addr).Some?
    ensures Obtain(v, s, addr, dev) == (s, Find(v, s, addr))
  {}

  /** With enough buffers in the pool and devices that accept every request, a request brings in
      its chunk and all chunks of the window that lie on the volume, and drives out none. */
  lemma RequestCovers(v: Vol, s: State, addr: nat, dev: nat -> nat, tokenOk: bool, a: nat)
    requires Good(v, s) && v.mounted && 0 < addr <= v.volsize && READAHEAD < |s.free| && forall b :: dev(b) == 0
    ensures var s1 := Aread(v, s, addr, dev, tokenOk).0;
      && (a == addr || (addr < a <= addr + READAHEAD && a < v.volsize) ==> Cached(s1, a))
      && AllKept(s, s1, a)
  {
    hide Obtain, Ref, ReadAhead, Answer, EntryOk, Unique, Lists, Counts, Find;
    ObtainCovers(v, s, addr, dev, |s.entries|, a);
    ObtainInv(v, s, addr, dev, |s.entries|);
    var (s1, got) := Obtain(v, s, addr, dev);
    var i := got.value;
    RefInv(v, s1, i);
    RefOnly(v, s1, i);
    var s2 := Ref(v, s1, i);
    assert a == addr ==> Has(s2, a, i);
    ReadAheadCovers(v, s2, addr, 1, dev, i, a);
    var s3 := ReadAhead(v, s2, addr, 1, dev);
    AnswerOnly(v, s3, i, addr, tokenOk);
    var s4 := Answer(v, s3, i, addr, tokenOk).0;
    assert AllKept(s1, s2, a) && AllKept(s3, s4, a);
    assert a == addr ==> Has(s4, a, i);
    if Cached(s3, a) {
      var j :| Has(s3, a, j);
      assert Has(s4, a, j);
    }
  }
}
