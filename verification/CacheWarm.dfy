/** Reading chunks that are in the cache: such a read needs no device, but reading ahead behind the
    range can drive out the last chunk of the range before it is read. */
module CacheWarm {
  import opened Types
  import opened Seqs
  import opened CacheSpec
  import opened CacheInv
  import opened CacheRuns
  import opened CacheOrder
  import opened CacheWindow

  /** A request for the chunk is answered at once and with data. */
  ghost predicate Warm(v: Vol, s: State, a: nat)
    requires Ranged(v, s)
  {
    && v.mounted && 0 < a <= v.volsize
    && match Find(v, s, a)
       case Some(i) => s.entries[i].t.None? && !s.entries[i].invalid
       case None => false
  }

  ghost predicate AllWarm(v: Vol, s: State, first: nat, last: nat)
    requires Ranged(v, s)
  {
    forall a :: first <= a <= last ==> Warm(v, s, a)
  }

  /** Chunk `a` is in the cache, or never read ahead. */
  ghost predicate There(v: Vol, s: State, a: nat)
    requires Ranged(v, s)
  {
    v.volsize <= a || Find(v, s, a).Some?
  }

  lemma WarmRef(v: Vol, s: State, a: nat)
    requires Good(v, s) && Warm(v, s, a)
    ensures var i := Find(v, s, a).value;
      && i < |s.entries| && i !in s.free && s.entries[i].addr == a
      && Inv(v, s) && Held(v, Ref(v, s, i), i) && 0 <= s.entries[i].refcount
      && (i in s.alist <==> s.entries[i].refcount == 0)
  {
    var i := Find(v, s, a).value;
    FindExact(v, s, a, |s.entries|);
    assert EntryOk(v, s, i, |s.entries|);
    RefInv(v, s, i);
  }

  /** The request for a warm chunk. */
  lemma WarmRead(v: Vol, s: State, a: nat, dev: nat -> nat, tokenOk: bool)
    requires Good(v, s) && Warm(v, s, a)
    ensures var i := Find(v, s, a).value;
      Aread(v, s, a, dev, tokenOk) == (ReadAhead(v, Ref(v, s, i), a, 1, dev), Hit(i))
  {
    hide ReadAhead, Find;
    var i := Find(v, s, a).value;
    WarmRef(v, s, a);
    AreadExact(v, s, a, dev, tokenOk);
  }

  // ---------------------------------------------------------------- nothing to read ahead

  /** Taking a reference to a valid entry and giving it back only makes the entry the most recently
      used one, if it is available. */
  lemma RefRelease(v: Vol, s: State, i: nat)
    requires Ranged(v, s) && i < |s.entries| && 0 <= s.entries[i].refcount && !s.entries[i].invalid
    requires i in s.alist <==> s.entries[i].refcount == 0
    ensures Release(v, Ref(v, s, i), i) ==
      s.(alist := if s.entries[i].refcount == 0 then Remove(s.alist, i) + [i] else s.alist)
  {
    var s2 := Ref(v, s, i);
    assert s2.entries[i := s2.entries[i].(refcount := s2.entries[i].refcount - 1)] == s.entries;
  }

  /** Reading ahead changes nothing if the chunks are there. */
  lemma QuietAhead(v: Vol, s: State, a: nat, dev: nat -> nat)
    requires Ranged(v, s) && There(v, s, a + 1) && There(v, s, a + 2)
    ensures ReadAhead(v, s, a, 1, dev) == s
  {
    hide Find, Obtain;
    if a + 1 < v.volsize {
      ObtainFound(v, s, a + 1, dev);
      if a + 2 < v.volsize { ObtainFound(v, s, a + 2, dev); }
      assert ReadAhead(v, s, a, 1, dev) == ReadAhead(v, s, a, 2, dev) == ReadAhead(v, s, a, 3, dev) == s;
    }
  }

  /** If the chunks that would be read ahead are there, a read of a warm chunk only makes it the
      most recently used one. */
  lemma QuietRead(v: Vol, s: State, a: nat, dev: nat -> nat, tokenOk: bool)
    requires Good(v, s) && Warm(v, s, a) && There(v, s, a + 1) && There(v, s, a + 2)
    ensures var i := Find(v, s, a).value;
      && Aread(v, s, a, dev, tokenOk).0 == Ref(v, s, i)
      && Release(v, Ref(v, s, i), i) ==
           s.(alist := if s.entries[i].refcount == 0 then Remove(s.alist, i) + [i] else s.alist)
  {
    hide Find, ReadAhead, Ref, Release, Aread, EntryOk;
    var i := Find(v, s, a).value;
    WarmRead(v, s, a, dev, tokenOk);
    WarmRef(v, s, a);
    FoundSame(v, s, i, a + 1);
    FoundSame(v, s, i, a + 2);
    QuietAhead(v, Ref(v, s, i), a, dev);
    RefRelease(v, s, i);
  }

  /** A reference more or less does not matter for finding a chunk. */
  lemma FoundSame(v: Vol, s: State, i: nat, a: nat)
    requires Ranged(v, s) && i < |s.entries|
    ensures Find(v, Ref(v, s, i), a) == Find(v, s, a)
  {
    FindInSame(s.entries, Ref(v, s, i).entries, s.clist[HtIndex(v.htlen, a)], a);
  }

  lemma {:induction false} FindInSame(es: seq<Entry>, fs: seq<Entry>, l: seq<nat>, a: nat)
    requires InRange(es, l) && |fs| == |es| && forall j :: 0 <= j < |es| ==> fs[j].addr == es[j].addr
    ensures FindIn(fs, l, a) == FindIn(es, l, a)
  {
    if l != [] { FindInSame(es, fs, l[1..], a); }
  }

  // ---------------------------------------------------------------- the last chunk of a range

  /** The buffer that is reused when chunk `last` + 1 is read ahead is that of chunk `last`, however
      often the chunks from `first` up to it are read before: no other available entry that is
      idle is ahead of it. */
  ghost predicate Pressed(v: Vol, s: State, first: nat, last: nat)
    requires Ranged(v, s) && Find(v, s, last).Some?
  {
    var e := Find(v, s, last).value;
    && !There(v, s, last + 1) && s.free == [] && e in s.alist
    && forall x: nat :: Ahead(s.alist, x, e) && x < |s.entries| && s.entries[x].t.None? ==>
         first <= s.entries[x].addr < last
  }

  lemma {:induction false} IdleInFront(es: seq<Entry>, l: seq<nat>, e: nat)
    requires InRange(es, l) && NoDup(l) && e < |es| && es[e].t.None?
    ensures FirstIdle(es, l) == Some(e) <==>
      e in l && forall x: nat :: Ahead(l, x, e) && x < |es| ==> es[x].t.Some?
  {
    var p := FirstIdleIs(es, l);
    if e in l {
      var q :| 0 <= q < |l| && l[q] == e;
      if p < q {
        assert Ahead(l, l[p], e);
      } else {
        forall x: nat | Ahead(l, x, e) && x < |es| ensures es[x].t.Some? {
          var i, j :| 0 <= i < j < |l| && l[i] == x && l[j] == e;
        }
      }
    }
  }

  lemma {:induction false} RemovedAhead(l: seq<nat>, i: nat, x: nat, y: nat)
    requires Ahead(Remove(l, i), x, y)
    ensures Ahead(l, x, y) && x != i
  {
    hide Remove;
    var p, q :| 0 <= p < q < |Remove(l, i)| && Remove(l, i)[p] == x && Remove(l, i)[q] == y;
    assert l != [] by { RemoveNone(i); }
    var n := |l| - 1;
    assert l == l[..n] + [l[n]];
    RemoveLast(l, i);
    var r := Remove(l[..n], i);
    if q < |r| {
      assert r[p] == x && r[q] == y;
      RemovedAhead(l[..n], i, x, y);
      AheadLonger(l[..n], [l[n]], x, y);
    } else {
      assert x in r;
      AheadAppended(l[..n], x, y);
    }
  }

  lemma RemoveAheadOnly(l: seq<nat>, i: nat, x: nat, y: nat)
    requires y != i
    ensures Ahead(Remove(l, i), x, y) <==> Ahead(l, x, y) && x != i
  {
    hide Ahead, Remove;
    if Ahead(l, x, y) && x != i { RemoveAhead(l, i, x, y); }
    if Ahead(Remove(l, i), x, y) { RemovedAhead(l, i, x, y); }
  }

  lemma RemoveNone(i: nat)
    ensures Remove([], i) == []
  {}

  lemma OneEntry(v: Vol, s: State, h: nat, a: nat, j: nat)
    requires Held(v, s, h) && Has(s, a, j) && 0 < a
    ensures Find(v, s, a) == Some(j)
  {
    FindExact(v, s, a, h);
  }

  lemma AheadIn(l: seq<nat>, x: nat, y: nat)
    requires Ahead(l, x, y)
    ensures x in l && y in l
  {}

  /** The queue without the entry that is referenced. */
  lemma RefAhead(v: Vol, s: State, i: nat, x: nat, e: nat)
    requires Ranged(v, s) && i < |s.entries| && e != i && (i in s.alist <==> s.entries[i].refcount == 0)
    ensures Ahead(Ref(v, s, i).alist, x, e) <==> Ahead(s.alist, x, e) && x != i
  {
    hide Ahead, Remove;
    if s.entries[i].refcount == 0 {
      RemoveAheadOnly(s.alist, i, x, e);
    } else if Ahead(s.alist, x, e) {
      AheadIn(s.alist, x, e);
    }
  }

  lemma RefMember(v: Vol, s: State, i: nat, e: nat)
    requires Ranged(v, s) && i < |s.entries| && e != i && NoDup(s.alist)
    requires i in s.alist <==> s.entries[i].refcount == 0
    ensures e in Ref(v, s, i).alist <==> e in s.alist
    ensures NoDup(Ref(v, s, i).alist)
  {
    RemoveNoDup(s.alist, i);
  }

  /** Referencing the entry of chunk `a` takes just that one out of what is ahead of entry `e`. */
  lemma AheadAfterRef(v: Vol, s: State, a: nat, i: nat, e: nat)
    requires Good(v, s) && Has(s, a, i) && 0 < a && e != i && (i in s.alist <==> s.entries[i].refcount == 0)
    ensures forall x: nat :: x < |s.entries| ==>
      (Ahead(Ref(v, s, i).alist, x, e) <==> Ahead(s.alist, x, e) && s.entries[x].addr != a)
  {
    forall x: nat | x < |s.entries|
      ensures Ahead(Ref(v, s, i).alist, x, e) <==> Ahead(s.alist, x, e) && s.entries[x].addr != a
    {
      hide Ahead, EntryOk, Ref;
      RefAhead(v, s, i, x, e);
      if Ahead(s.alist, x, e) { AvailableOnce(v, s, x, i, e, a); }
    }
  }

  /** Whether the entry of the next chunk is the first idle one once that of this chunk is
      referenced. */
  lemma PressedFirst(v: Vol, s: State, a: nat)
    requires Good(v, s) && Warm(v, s, a) && Warm(v, s, a + 1)
    ensures var i, e := Find(v, s, a).value, Find(v, s, a + 1).value;
      && Ranged(v, Ref(v, s, i))
      && (Pressed(v, s, a, a + 1) <==>
            !There(v, s, a + 2) && s.free == []
            && FirstIdle(Ref(v, s, i).entries, Ref(v, s, i).alist) == Some(e))
  {
    hide Find, Warm, There, Ahead, NoDup, Ref, Good, Ranged, InRange;
    WarmPair(v, s, a);
    var i, e := Find(v, s, a).value, Find(v, s, a + 1).value;
    AheadAfterRef(v, s, a, i, e);
    SameFront(s.entries, s.alist, Ref(v, s, i).entries, Ref(v, s, i).alist, e, a);
  }

  lemma WarmPair(v: Vol, s: State, a: nat)
    requires Good(v, s) && Warm(v, s, a) && Warm(v, s, a + 1)
    ensures Ranged(v, s) && Find(v, s, a).Some? && Find(v, s, a + 1).Some? && 0 < a && InRange(s.entries, s.alist)
    ensures var i, e := Find(v, s, a).value, Find(v, s, a + 1).value;
      && i < |s.entries| && e < |s.entries| && i != e && Has(s, a, i) && s.entries[e].t.None?
      && (i in s.alist <==> s.entries[i].refcount == 0)
      && var s2 := Ref(v, s, i);
        && Ranged(v, s2) && InRange(s2.entries, s2.alist) && NoDup(s2.alist) && (e in s2.alist <==> e in s.alist)
        && |s2.entries| == |s.entries| && forall x: nat :: x < |s.entries| ==> s2.entries[x].t == s.entries[x].t
  {
    var i, e := Find(v, s, a).value, Find(v, s, a + 1).value;
    WarmRef(v, s, a);
    WarmRef(v, s, a + 1);
    RefMember(v, s, i, e);
    RefOnly(v, s, i);
  }

  lemma SameFront(es: seq<Entry>, l: seq<nat>, fs: seq<Entry>, m: seq<nat>, e: nat, a: nat)
    requires InRange(es, l) && InRange(fs, m) && |es| == |fs| && NoDup(m) && (e in m <==> e in l)
    requires e < |es| && es[e].t.None? && forall x: nat :: x < |es| ==> fs[x].t == es[x].t
    requires forall x: nat :: x < |es| ==> (Ahead(m, x, e) <==> Ahead(l, x, e) && es[x].addr != a)
    ensures FirstIdle(fs, m) == Some(e) <==>
      e in l && forall x: nat :: Ahead(l, x, e) && x < |es| && es[x].t.None? ==> a <= es[x].addr < a + 1
  {
    hide Ahead, NoDup, FirstIdle, InRange;
    IdleInFront(fs, m, e);
  }

  lemma AvailableOnce(v: Vol, s: State, x: nat, i: nat, e: nat, a: nat)
    requires Good(v, s) && x < |s.entries| && Ahead(s.alist, x, e) && Has(s, a, i) && 0 < a
    ensures s.entries[x].addr == a <==> x == i
  {
    var p, q :| 0 <= p < q < |s.alist| && s.alist[p] == x && s.alist[q] == e;
    assert x in s.alist;
    assert EntryOk(v, s, x, |s.entries|);
    if s.entries[x].addr == a {
      OneEntry(v, s, |s.entries|, a, x);
      OneEntry(v, s, |s.entries|, a, i);
    }
  }

  /** Reading ahead the chunk after next drives out the next one exactly if the pool is empty and its
      entry is the first idle one. */
  lemma WindowEnd(v: Vol, s: State, a: nat, dev: nat -> nat, i: nat, e: nat)
    requires Held(v, s, i) && i < |s.entries| && Has(s, a + 1, e) && e !in s.free && !There(v, s, a + 2)
    ensures var s1 := ReadAhead(v, s, a, 1, dev);
      && Find(v, s1, a + 1) == (if s.free == [] && FirstIdle(s.entries, s.alist) == Some(e) then None else Some(e))
      && (!(s.free == [] && FirstIdle(s.entries, s.alist) == Some(e)) ==> s1.entries[e] == s.entries[e])
  {
    hide Find, ReadAhead, Obtain, EntryOk, Unique, HtIndex;
    OneEntry(v, s, i, a + 1, e);
    AheadOnce(v, s, a, dev);
    var x := ObtainChanges(v, s, a + 2, dev, i);
    ObtainInv(v, s, a + 2, dev, i);
    OneChanged(v, s, Obtain(v, s, a + 2, dev).0, i, x, e, a + 1, a + 2);
  }

  /** What reading ahead leaves of the next chunk: its entry is untouched, or exactly if it is
      pressed the chunk is no more in the cache. */
  lemma LastRead(v: Vol, s: State, a: nat, dev: nat -> nat, tokenOk: bool)
    requires Good(v, s) && Warm(v, s, a) && Warm(v, s, a + 1)
    ensures var s1, e := Aread(v, s, a, dev, tokenOk).0, Find(v, s, a + 1).value;
      && Ranged(v, s1) && |s1.entries| == |s.entries|
      && Find(v, s1, a + 1) == (if Pressed(v, s, a, a + 1) then None else Some(e))
      && (!Pressed(v, s, a, a + 1) ==> s1.entries[e] == s.entries[e])
  {
    WarmRead(v, s, a, dev, tokenOk);
    WarmNext(v, s, a);
    PressedFirst(v, s, a);
    hide Find, Warm, Pressed, ReadAhead, Ref, Aread, Good, Held, InvBut;
    var i, e := Find(v, s, a).value, Find(v, s, a + 1).value;
    var s2 := Ref(v, s, i);
    if There(v, s, a + 2) {
      QuietAhead(v, s2, a, dev);
    } else {
      WindowEnd(v, s2, a, dev, i, e);
    }
  }

  lemma WarmNext(v: Vol, s: State, a: nat)
    requires Good(v, s) && Warm(v, s, a) && Warm(v, s, a + 1)
    ensures var i, e := Find(v, s, a).value, Find(v, s, a + 1).value;
      && Ranged(v, s) && i < |s.entries| && e < |s.entries| && Find(v, s, a).Some? && Find(v, s, a + 1).Some?
      && var s2 := Ref(v, s, i);
        && Ranged(v, s2) && Held(v, s2, i) && Has(s2, a + 1, e) && s2.entries[e] == s.entries[e] && s2.free == s.free
        && Find(v, s2, a + 1) == Some(e) && (There(v, s2, a + 1) && (There(v, s2, a + 2) <==> There(v, s, a + 2)))
  {
    WarmRef(v, s, a);
    WarmRef(v, s, a + 1);
    var i := Find(v, s, a).value;
    FoundSame(v, s, i, a + 1);
    FoundSame(v, s, i, a + 2);
    hide Find, EntryOk, Unique, TokensOk;
    RefOnly(v, s, i);
  }

  lemma AheadOnce(v: Vol, s: State, a: nat, dev: nat -> nat)
    requires Ranged(v, s) && Find(v, s, a + 1).Some? && a + 2 < v.volsize
    ensures ReadAhead(v, s, a, 1, dev) == Obtain(v, s, a + 2, dev).0
  {
    hide Obtain, Find;
    ObtainFound(v, s, a + 1, dev);
    assert ReadAhead(v, s, a, 1, dev) == ReadAhead(v, s, a, 2, dev);
  }

  /** Where only buffer `x` changes, a chunk stays exactly if its entry is another one. */
  lemma OneChanged(v: Vol, s: State, s1: State, h: nat, x: nat, e: nat, a: nat, b: nat)
    requires Held(v, s, h) && Held(v, s1, h) && |s1.entries| == |s.entries| && Has(s, a, e) && 0 < a != b
    requires forall j :: 0 <= j < |s.entries| && j != x ==>
      s1.entries[j] == s.entries[j] && (j in s1.free <==> j in s.free)
    requires x < |s.entries| ==> x in s1.free || s1.entries[x].addr == b
    ensures Find(v, s1, a) == if x == e then None else Some(e)
  {
    FindExact(v, s1, a, h);
    hide Find, EntryOk;
    if x != e {
      OneEntry(v, s1, h, a, e);
    } else if Find(v, s1, a).Some? {
      OneEntry(v, s, h, a, Find(v, s1, a).value);
      OneEntry(v, s, h, a, e);
    }
  }

  // ---------------------------------------------------------------- a range

  /** A read of the chunks from `first` to `last`, one after the other, finds every one of them in
      the cache. */
  ghost predicate Ready(v: Vol, s: State, first: nat, last: nat)
    requires Ranged(v, s) && first <= last
  {
    AllWarm(v, s, first, last) && (Warm(v, s, last) && first < last ==> !Pressed(v, s, first, last))
  }

  /** Giving back a valid entry. */
  lemma GivenBackValid(v: Vol, s: State, i: nat)
    requires Good(v, s) && Enabled(s, DoRelease(i)) && !s.entries[i].invalid
    ensures var s1 := Release(v, s, i);
      && Good(v, s1) && Ranged(v, s1) && |s1.entries| == |s.entries| && s1.clist == s.clist
      && (forall j :: 0 <= j < |s.entries| ==> s1.entries[j] == s.entries[j].(refcount := s1.entries[j].refcount))
      && forall a :: Find(v, s1, a) == Find(v, s, a)
  {
    StepKeeps(v, s, DoRelease(i));
    var s1 := Release(v, s, i);
    forall a ensures Find(v, s1, a) == Find(v, s, a) {
      FindInSame(s.entries, s1.entries, s.clist[HtIndex(v.htlen, a)], a);
    }
  }

  /** A chunk of the range was read and given back. */
  lemma WarmPassed(v: Vol, s: State, a: nat, dev: nat -> nat, tokenOk: bool)
    requires Good(v, s) && Warm(v, s, a)
    ensures Ranged(v, s) && Find(v, s, a).Some? && Ranged(v, Aread(v, s, a, dev, tokenOk).0)
    ensures var s1, i := Aread(v, s, a, dev, tokenOk).0, Find(v, s, a).value;
      && Good(v, s1) && Enabled(s1, DoRelease(i)) && !s1.entries[i].invalid && Aread(v, s, a, dev, tokenOk).1 == Hit(i)
      && Good(v, Release(v, s1, i))
  {
    var i := Find(v, s, a).value;
    WarmRead(v, s, a, dev, tokenOk);
    WarmRef(v, s, a);
    hide Aread, Find, EntryOk, Unique, TokensOk;
    AreadKeeps(v, s, a, dev, tokenOk);
    RequestBrings(v, s, a, dev, tokenOk, a, i);
    GivenBackValid(v, Aread(v, s, a, dev, tokenOk).0, i);
  }

  /** Passing one chunk of the range leaves the rest as ready as it was. */
  lemma ReadyStep(v: Vol, s: State, a: nat, last: nat, dev: nat -> nat, tokenOk: bool)
    requires Good(v, s) && a < last && AllWarm(v, s, a, last) && Warm(v, s, a)
    ensures var s1, i := Aread(v, s, a, dev, tokenOk).0, Find(v, s, a).value;
      && Ranged(v, s1) && i < |s1.entries| && Good(v, Release(v, s1, i))
      && (Ready(v, Release(v, s1, i), a + 1, last) <==> Ready(v, s, a, last))
  {
    hide Aread, Find, Pressed, Release, Warm, EntryOk, Unique, Lists, Counts, TokensOk;
    assert Warm(v, s, a) && Warm(v, s, a + 1) && Warm(v, s, last);
    WarmPassed(v, s, a, dev, tokenOk);
    var s1, i := Aread(v, s, a, dev, tokenOk).0, Find(v, s, a).value;
    GivenBackValid(v, s1, i);
    if a + 1 == last {
      LastRead(v, s, a, dev, tokenOk);
      WarmRef(v, s, last);
      LastWarm(v, s, s1, Release(v, s1, i), last);
    } else {
      assert Warm(v, s, a + 2);
      WarmThere(v, s, a + 1);
      WarmThere(v, s, a + 2);
      QuietRead(v, s, a, dev, tokenOk);
      Rotated(v, s, a, last, Release(v, s1, i));
    }
  }

  lemma WarmThere(v: Vol, s: State, a: nat)
    requires Ranged(v, s) && Warm(v, s, a)
    ensures There(v, s, a)
  {}

  lemma LastWarm(v: Vol, s: State, s1: State, s2: State, a: nat)
    requires Ranged(v, s) && Ranged(v, s1) && Ranged(v, s2) && Warm(v, s, a)
    requires |s2.entries| == |s1.entries| == |s.entries|
    requires forall j :: 0 <= j < |s.entries| ==> s2.entries[j] == s1.entries[j].(refcount := s2.entries[j].refcount)
    requires Find(v, s2, a) == Find(v, s1, a)
    requires Find(v, s, a).value < |s.entries|
    ensures Find(v, s1, a).None? ==> !Warm(v, s2, a)
    ensures var e := Find(v, s, a).value;
      Find(v, s1, a) == Some(e) && s1.entries[e] == s.entries[e] ==> Warm(v, s2, a)
  {
    hide Find;
  }

  /** The range when its first chunk has become the most recently used one. */
  lemma Rotated(v: Vol, s: State, a: nat, last: nat, s1: State)
    requires Good(v, s) && AllWarm(v, s, a, last) && a + 1 < last && Warm(v, s, a) && Ranged(v, s1)
    requires var i := Find(v, s, a).value;
      s1 == s.(alist := if s.entries[i].refcount == 0 then Remove(s.alist, i) + [i] else s.alist)
    ensures Ready(v, s1, a + 1, last) <==> Ready(v, s, a, last)
  {
    hide Remove;
    hide EntryOk, Unique, TokensOk, Find, Ahead;
    assert Warm(v, s, last);
    WarmRef(v, s, a);
    WarmRef(v, s, last);
    var i, e := Find(v, s, a).value, Find(v, s, last).value;
    forall x | 0 <= x ensures Find(v, s1, x) == Find(v, s, x) { SameFind(v, s, s1, x); }
    forall x | a + 1 <= x <= last ensures Warm(v, s1, x) <==> Warm(v, s, x) {}
    forall x: nat | x < |s.entries|
      ensures Ahead(s1.alist, x, e) <==> Ahead(s.alist, x, e) && s.entries[x].addr != a
    {
      RotatedAhead(v, s, a, i, e, s1.alist, x);
    }
  }

  lemma SameFind(v: Vol, s: State, s1: State, a: nat)
    requires Ranged(v, s) && Ranged(v, s1) && s1.entries == s.entries && s1.clist == s.clist
    ensures Find(v, s1, a) == Find(v, s, a)
  {}

  lemma RotatedAhead(v: Vol, s: State, a: nat, i: nat, e: nat, l: seq<nat>, x: nat)
    requires Good(v, s) && Has(s, a, i) && 0 < a && e < |s.entries| && e != i && x < |s.entries|
    requires i in s.alist <==> s.entries[i].refcount == 0
    requires l == if s.entries[i].refcount == 0 then Remove(s.alist, i) + [i] else s.alist
    ensures Ahead(l, x, e) <==> Ahead(s.alist, x, e) && s.entries[x].addr != a
  {
    hide Ahead, EntryOk, Remove;
    if Ahead(s.alist, x, e) {
      AvailableOnce(v, s, x, i, e, a);
      AheadIn(s.alist, x, e);
    }
    if s.entries[i].refcount == 0 {
      RemoveAheadOnly(s.alist, i, x, e);
      LastAhead(Remove(s.alist, i), i, x, e);
    }
  }

  lemma LastAhead(l: seq<nat>, i: nat, x: nat, e: nat)
    requires e != i
    ensures Ahead(l + [i], x, e) <==> Ahead(l, x, e)
  {
    if Ahead(l, x, e) { AheadLonger(l, [i], x, e); }
    if Ahead(l + [i], x, e) {
      var p, q :| 0 <= p < q < |l + [i]| && (l + [i])[p] == x && (l + [i])[q] == e;
      assert q < |l| && l[p] == x && l[q] == e;
    }
  }
}
