/** Loading the hash table of a volume, and loading it again while the volume is in use. */
module Remount {
  import opened Types
  import opened Seqs
  import opened HashWords
  import opened TableSpec
  import opened TableImage
  import opened Arith
  import HTable

  /** What mounting leaves in memory: the bucket table, the entries and the default entry. */
  datatype Vol = Vol(table: Table, cache: Image, def: Option<nat>)

  ghost predicate Fit(v: Vol, img: Image, per: nat) {
    var n := |v.table.slots|;
    Shape(v.table) && Sized(v.cache, per, n) && Sized(img, per, n)
  }

  /** What a fresh mount of an image gives. */
  ghost function Fresh(img: Image, per: nat, nbBkts: nat, elPerBkt: nat, hlen: nat): Vol
    requires Sized(img, per, nbBkts * elPerBkt) && hlen <= 64
  {
    Vol(Loaded(img, per, nbBkts, elPerBkt, hlen), img, LastDefault(img, per, nbBkts * elPerBkt))
  }

  /** One entry is read again: its slot is fed, its meta data replaced, and the default entry
      follows its mark. */
  ghost function Visit(v: Vol, img: Image, per: nat, i: nat): Vol
    requires Fit(v, img, per) && i < |v.table.slots|
  {
    var e := Get(img, per, i);
    Vol(Feed(v.table, i, e.hash[..v.table.hlen]),
        Put(v.cache, per, i, e),
        if e.dflt then Some(i) else if v.def == Some(i) then None else v.def)
  }

  lemma VisitFit(v: Vol, img: Image, per: nat, i: nat)
    requires Fit(v, img, per) && i < |v.table.slots|
    ensures Fit(Visit(v, img, per, i), img, per)
    ensures Visit(v, img, per, i).table.hlen == v.table.hlen
    ensures |Visit(v, img, per, i).cache| == |v.cache|
  {
    PutGet(v.cache, per, |v.table.slots|, i, Get(img, per, i));
  }

  /** The first `m` entries are read again. */
  ghost function Visits(v: Vol, img: Image, per: nat, m: nat): (r: Vol)
    requires Fit(v, img, per) && m <= |v.table.slots|
    ensures Fit(r, img, per) && r.table.(slots := v.table.slots, order := v.table.order) == v.table
    ensures |r.table.slots| == |v.table.slots| && |r.cache| == |v.cache|
  {
    if m == 0 then v
    else
      var w := Visits(v, img, per, m - 1);
      VisitFit(w, img, per, m - 1);
      Visit(w, img, per, m - 1)
  }

  /** The members of a list that are not below `m`. */
  function From(l: seq<nat>, m: nat): seq<nat> {
    if l == [] then []
    else if l[|l| - 1] < m then From(l[..|l| - 1], m) else From(l[..|l| - 1], m) + [l[|l| - 1]]
  }

  lemma {:induction false} FromNext(l: seq<nat>, m: nat)
    ensures Remove(From(l, m), m) == From(l, m + 1)
  {
    if l != [] {
      var k, x := l[..|l| - 1], l[|l| - 1];
      FromNext(k, m);
      if m <= x { assert (From(k, m) + [x])[..|From(k, m)|] == From(k, m); }
    }
  }

  lemma {:induction false} FromAll(l: seq<nat>)
    ensures From(l, 0) == l
  {
    if l != [] {
      FromAll(l[..|l| - 1]);
      assert l == l[..|l| - 1] + [l[|l| - 1]];
    }
  }

  lemma {:induction false} FromNone(l: seq<nat>, m: nat)
    requires forall j :: 0 <= j < |l| ==> l[j] < m
    ensures From(l, m) == []
  {
    if l != [] { FromNone(l[..|l| - 1], m); }
  }

  lemma {:induction false} RemoveSum(a: seq<nat>, b: seq<nat>, x: nat)
    requires x !in b
    ensures Remove(a + b, x) == Remove(a, x) + b
  {
    if b == [] {
      assert a + b == a;
    } else {
      var c := b[..|b| - 1];
      assert (a + b)[..|a + b| - 1] == a + c && b == c + [b[|b| - 1]];
      RemoveSum(a, c, x);
      assert Remove(a, x) + c + [b[|b| - 1]] == Remove(a, x) + b;
    }
  }

  /** Entries below `m` are those of the new image, the others those of the old one. */
  ghost predicate Contents(v: Vol, img: Image, per: nat, m: nat, r: Vol)
    requires Fit(v, img, per) && Fit(r, img, per) && |r.table.slots| == |v.table.slots|
  {
    var n, hlen := |v.table.slots|, v.table.hlen;
    && (forall i: nat :: i < n ==>
          r.table.slots[i] == if i < m then Get(img, per, i).hash[..hlen] else v.table.slots[i])
    && (forall i: nat :: i < n ==> Get(r.cache, per, i) == if i < m then Get(img, per, i) else Get(v.cache, per, i))
  }

  lemma ContentsNext(v: Vol, img: Image, per: nat, m: nat, w: Vol)
    requires Fit(v, img, per) && Fit(w, img, per) && m < |w.table.slots| == |v.table.slots|
    requires w.table.hlen == v.table.hlen && Contents(v, img, per, m, w)
    ensures Fit(Visit(w, img, per, m), img, per) && Contents(v, img, per, m + 1, Visit(w, img, per, m))
  {
    hide Used, Get, Put;
    VisitFit(w, img, per, m);
    PutGet(w.cache, per, |v.table.slots|, m, Get(img, per, m));
  }

  /** The list after the first `m` entries: the old slots that are still to come, in their old
      order, then the new slots in use. */
  ghost function Order(l: seq<nat>, s: seq<Key>, hlen: nat, m: nat): seq<nat>
    requires m <= |s|
  {
    From(l, m) + Used(s, hlen, m)
  }

  lemma OrderNext(l: seq<nat>, s: seq<Key>, hlen: nat, m: nat)
    requires m < |s|
    ensures Remove(Order(l, s, hlen, m), m) + (if s[m] == Nul(hlen) then [] else [m]) == Order(l, s, hlen, m + 1)
  {
    hide Remove, From, Nul;
    var u := Used(s, hlen, m);
    FromNext(l, m);
    RemoveSum(From(l, m), u, m);
    assert From(l, m + 1) + u + [m] == From(l, m + 1) + (u + [m]);
  }

  /** While the table is loaded again, the entries read so far are those of the new image and
      the others those of the old one; the list has the old slots in their old order, then
      the new ones. */
  lemma {:induction false} VisitsAre(v: Vol, img: Image, per: nat, m: nat)
    requires Fit(v, img, per) && m <= |v.table.slots|
    ensures var r, s := Visits(v, img, per, m), Hashes(img, per, |v.table.slots|, v.table.hlen);
      && Contents(v, img, per, m, r)
      && r.table.order == Order(v.table.order, s, v.table.hlen, m)
  {
    hide Contents, Order, Remove, Put, Used, Get;
    if m == 0 {
      Unvisited(v, img, per);
    } else {
      VisitsAre(v, img, per, m - 1);
      ContentsNext(v, img, per, m - 1, Visits(v, img, per, m - 1));
      OrderNext(v.table.order, Hashes(img, per, |v.table.slots|, v.table.hlen), v.table.hlen, m - 1);
    }
  }

  /** The old default stays until its slot is reached or another is found. */
  lemma {:induction false} VisitsDefault(v: Vol, img: Image, per: nat, m: nat)
    requires Fit(v, img, per) && m <= |v.table.slots|
    ensures Visits(v, img, per, m).def == if LastDefault(img, per, m).Some? then LastDefault(img, per, m)
                                          else if v.def.Some? && v.def.value < m then None else v.def
  {
    hide Feed, Put;
    if m > 0 { VisitsDefault(v, img, per, m - 1); }
  }

  lemma Unvisited(v: Vol, img: Image, per: nat)
    requires Fit(v, img, per)
    ensures Contents(v, img, per, 0, v)
    ensures forall s, hlen :: Order(v.table.order, s, hlen, 0) == v.table.order
  {
    FromAll(v.table.order);
  }

  lemma SameImage(a: Image, b: Image, per: nat, n: nat)
    requires Sized(a, per, n) && Sized(b, per, n) && |a| == |b| && n == |a| * per
    requires forall i: nat :: i < n ==> Get(a, per, i) == Get(b, per, i)
    ensures a == b
  {
    forall c | 0 <= c < |a| ensures a[c] == b[c] {
      forall o | 0 <= o < per ensures a[c][o] == b[c][o] {
        DivUnique(c * per + o, per, c, o);
        MulMono(c + 1, |a|, per);
        assert Get(a, per, c * per + o) == Get(b, per, c * per + o);
      }
    }
  }

  /** A remount that completes leaves what a fresh mount of the new image gives: the same
      digests in the same slots, the same entries, the list in the same order and the same
      default entry. */
  lemma RemountIsMount(v: Vol, img: Image, per: nat)
    requires Fit(v, img, per) && |v.cache| == |img| && |v.table.slots| == |img| * per
    requires Listed(v.table) && (v.def.Some? ==> v.def.value < |v.table.slots|)
    ensures Visits(v, img, per, |v.table.slots|) == Fresh(img, per, v.table.nbBkts, v.table.elPerBkt, v.table.hlen)
  {
    var n := |v.table.slots|;
    VisitsAre(v, img, per, n);
    VisitsDefault(v, img, per, n);
    var r := Visits(v, img, per, n);
    SameImage(r.cache, img, per, n);
    forall j | 0 <= j < |v.table.order| ensures v.table.order[j] < n { assert InUse(v.table, v.table.order[j]); }
    FromNone(v.table.order, n);
    assert r.table.slots == Hashes(img, per, n, v.table.hlen);
  }

  /** How many chunks the table takes. */
  function Chunks(n: nat, per: nat): nat
    requires 0 < per
  {
    (n + per - 1) / per
  }

  lemma ChunksAre(n: nat, per: nat)
    requires 0 < per && 0 < n
    ensures var k := Chunks(n, per); 0 < k && (k - 1) * per < n <= k * per
    ensures n == Chunks(n, per) * per <==> n % per == 0
  {
    var k, q, r := Chunks(n, per), n / per, n % per;
    assert n == q * per + r;
    if r == 0 {
      DivUnique(n + per - 1, per, q, per - 1);
    } else {
      assert (q + 1) * per == q * per + per;
      DivUnique(n + per - 1, per, q + 1, r - 1);
    }
  }

  lemma PutSame(m: Image, per: nat, i: nat)
    requires 0 < per && Chk(i, per) < |m| && |m[Chk(i, per)]| == per
    ensures Put(m, per, i, Get(m, per, i)) == m
  {
    var c := m[Chk(i, per)];
    assert c[Off(i, per) := c[Off(i, per)]] == c;
  }

  lemma IndexPlace(c: nat, o: nat, per: nat)
    requires o < per
    ensures Chk(c * per + o, per) == c && Off(c * per + o, per) == o
  {
    DivUnique(c * per + o, per, c, o);
  }

  lemma VisitsNext(v: Vol, img: Image, per: nat, m: nat)
    requires Fit(v, img, per) && m <= |v.table.slots| && (v.def.Some? ==> v.def.value < |v.table.slots|)
    ensures var w := Visits(v, img, per, m);
      && Visits(v, img, per, 0) == v && (w.def.Some? ==> w.def.value < |v.table.slots|)
      && (m < |v.table.slots| ==> Visits(v, img, per, m + 1) == Visit(w, img, per, m))
      && (v.def == None ==> w.def != Some(m))
  {
    VisitsDefault(v, img, per, m);
  }

  class Mount {
    const bt: HTable.Table
    const per: nat
    const cache: array<seq<HEntry>>
    var def: Option<nat>

    ghost predicate Valid()
      reads this, bt, bt.h, cache
    {
      && bt.Valid() && Listed(bt.View()) && Sized(cache[..], per, bt.h.Length)
      && 0 < per && cache.Length == Chunks(bt.h.Length, per)
    }

    ghost function View(): Vol
      reads this, bt, bt.h, cache
      requires bt.hlen <= 64
    {
      Vol(bt.View(), cache[..], def)
    }

    /** The kernel's `load_vol_htable` up to the point where the image was read into the chunk
        cache and the bucket table allocated. */
    constructor (img: Image, per: nat, nbBkts: nat, elPerBkt: nat, hlen: nat)
      requires 0 < nbBkts && 0 < elPerBkt && hlen <= 64
      requires Sized(img, per, nbBkts * elPerBkt) && |img| == Chunks(nbBkts * elPerBkt, per)
      ensures Valid() && fresh(bt) && fresh(bt.h) && fresh(cache)
      ensures View() == Vol(Empty(nbBkts, elPerBkt, hlen), img, None) && this.per == per
    {
      bt := new HTable.Table(nbBkts, elPerBkt, hlen);
      cache := new seq<HEntry>[|img|](i requires 0 <= i < |img| => img[i]);
      this.per := per;
      def := None;
      new;
      assert cache[..] == img;
      EmptyInv(nbBkts, elPerBkt, hlen);
    }

    /** The rest of it: feeding the bucket table. */
    method Load()
      requires Valid() && bt.View() == Empty(bt.nbBkts, bt.elPerBkt, bt.hlen) && def == None
      modifies this, bt, bt.h
      ensures Valid() && View() == Fresh(cache[..], per, bt.nbBkts, bt.elPerBkt, bt.hlen)
    {
      hide Visits, Fresh, Feed, Empty, Listed, Chunks;
      ghost var v, img := View(), cache[..];
      VisitsNext(v, img, per, 0);
      for i := 0 to bt.h.Length
        invariant Valid() && cache[..] == img && Fit(v, img, per)
        invariant bt.h.Length == |v.table.slots| && View() == Visits(v, img, per, i)
      {
        VisitsNext(v, img, per, i);
        LoadEntry(i);
      }
      Complete(v, img, per, bt.nbBkts, bt.elPerBkt, bt.hlen);
    }

    /** One round of the loop that feeds the bucket table. */
    method LoadEntry(i: nat)
      requires Valid() && i < bt.h.Length && def != Some(i)
      modifies this, bt, bt.h
      ensures Valid() && View() == Visit(old(View()), cache[..], per, i)
    {
      var c := Chk(i, per);
      var hentry := cache[c][Off(i, per)];
      FeedListed(bt.View(), i, hentry.hash[..bt.hlen]);
      PutSame(cache[..], per, i);
      bt.Feed(i, hentry.hash);
      if hentry.dflt { def := Some(i); }
    }

    /** One round of the inner loop of `reload_vol_htable`, for an entry of the table. Both
        outcomes of the comparison lead to the same update. */
    method ReloadEntry(ghost img: Image, c: nat, e: nat, hentry: HEntry)
      requires Valid() && e < per && c * per + e < bt.h.Length
      requires Sized(img, per, bt.h.Length) && Get(img, per, c * per + e) == hentry
      modifies this, bt, bt.h, cache
      ensures Valid() && View() == Visit(old(View()), img, per, c * per + e)
    {
      IndexPlace(c, e, per);
      var idx := c * per + e;
      var chentry := cache[c][e];
      var changed := HashCompare(chentry.hash, hentry.hash, bt.hlen);
      if changed != 0 {
        var cZero := HashIsZero(chentry.hash, bt.hlen);
        var nZero := HashIsZero(hentry.hash, bt.hlen);
        BothZero(chentry.hash[..bt.hlen], hentry.hash[..bt.hlen]);
        if !cZero || !nZero { Update(img, idx, hentry); }
      } else {
        Update(img, idx, hentry);
      }
    }

    method Update(ghost img: Image, idx: nat, hentry: HEntry)
      requires Valid() && idx < bt.h.Length
      requires Sized(img, per, bt.h.Length) && Get(img, per, idx) == hentry
      modifies this, bt, bt.h, cache
      ensures Valid() && View() == Visit(old(View()), img, per, idx)
    {
      FeedListed(bt.View(), idx, hentry.hash[..bt.hlen]);
      PutGet(cache[..], per, bt.h.Length, idx, hentry);
      ghost var was := cache[..];
      bt.Feed(idx, hentry.hash);
      cache[Chk(idx, per)] := cache[Chk(idx, per)][Off(idx, per) := hentry];
      assert cache[..] == Put(was, per, idx, hentry);
      if def == Some(idx) && !hentry.dflt {
        def := None;
      } else if hentry.dflt {
        def := Some(idx);
      }
    }

    /** `reload_vol_htable`. `img` is the table on the volume and `ok` says which of its chunks
        can be read; `aborted` that the assertion in `shfs_btable_feed` fails. The remount
        then completes exactly if all chunks can be read and the entries fill them. */
    method Reload(img: Image, ok: seq<bool>) returns (ret: int, aborted: bool)
      requires Valid() && Sized(img, per, bt.h.Length) && |img| == |ok| == cache.Length
      requires def.Some? ==> def.value < bt.h.Length
      modifies this, bt, bt.h, cache
      ensures Valid()
      ensures ret == 0 <==> forall c :: 0 <= c < |ok| ==> ok[c]
      ensures aborted <==> ret == 0 && bt.h.Length % per != 0
      ensures ret == 0 && !aborted ==> View() == Fresh(img, per, bt.nbBkts, bt.elPerBkt, bt.hlen)
      ensures ret != 0 ==> ret == -EIO && exists c ::
        && 0 <= c < |ok| && !ok[c] && (forall b :: 0 <= b < c ==> ok[b])
        && c * per <= bt.h.Length && View() == Visits(old(View()), img, per, c * per)
    {
      hide Visits, Fresh, Listed, Shape, Chunks, Get;
      ghost var v, n := View(), bt.h.Length;
      ShapeSome(bt.View());
      ChunksAre(n, per);
      VisitsNext(v, img, per, 0);
      for c := 0 to cache.Length
        invariant Valid() && forall b :: 0 <= b < c ==> ok[b]
        invariant c * per <= n && View() == Visits(v, img, per, c * per)
      {
        if !ok[c] { return -EIO, false; }
        LastChunk(n, per, c);
        aborted := ReloadChunk(v, img, c, img[c]);
        if aborted { return 0, true; }
      }
      RemountIsMount(v, img, per);
      ret, aborted := 0, false;
    }

    /** The inner loop, over the places of a chunk. */
    method ReloadChunk(ghost v: Vol, ghost img: Image, c: nat, nchk: seq<HEntry>) returns (aborted: bool)
      requires Valid() && Fit(v, img, per) && (v.def.Some? ==> v.def.value < bt.h.Length)
      requires bt.h.Length == |v.table.slots|
      requires c < |img| && img[c] == nchk && |nchk| == per
      requires c * per < bt.h.Length && View() == Visits(v, img, per, c * per)
      modifies this, bt, bt.h, cache
      ensures Valid()
      ensures aborted <==> bt.h.Length < c * per + per
      ensures !aborted ==> View() == Visits(v, img, per, c * per + per)
    {
      hide Visits, Visit, Listed, Shape, Chunks, Sized;
      ghost var base := c * per;
      for e := 0 to per
        invariant Valid() && base + e <= bt.h.Length && View() == Visits(v, img, per, base + e)
      {
        if bt.h.Length <= c * per + e { return true; }
        IndexPlace(c, e, per);
        VisitsNext(v, img, per, base + e);
        ReloadEntry(img, c, e, nchk[e]);
      }
      aborted := false;
    }
  }

  /** Only the last chunk can have places that are not in use. */
  lemma LastChunk(n: nat, per: nat, c: nat)
    requires 0 < per && 0 < n && c < Chunks(n, per)
    ensures c * per < n && c * per + per == (c + 1) * per
    ensures n < c * per + per <==> c == Chunks(n, per) - 1 && n % per != 0
  {
    var k := Chunks(n, per);
    ChunksAre(n, per);
    MulMono(c, k - 1, per);
    if c < k - 1 { MulMono(c + 1, k - 1, per); }
    assert (c + 1) * per == c * per + per;
  }

  lemma ShapeSome(t: Table)
    requires Shape(t)
    ensures 0 < |t.slots|
  {
    MulMono(1, t.nbBkts, t.elPerBkt);
  }

  lemma BothZero(a: Key, b: Key)
    requires |a| == |b|
    ensures Zero(a) && Zero(b) ==> a == b
  {}

  /** Feeding all entries into an empty table. */
  lemma Complete(v: Vol, img: Image, per: nat, nbBkts: nat, elPerBkt: nat, hlen: nat)
    requires Fit(v, img, per) && v == Vol(Empty(nbBkts, elPerBkt, hlen), img, None)
    ensures Visits(v, img, per, |v.table.slots|).(cache := img) == Fresh(img, per, nbBkts, elPerBkt, hlen)
  {
    hide Visits, Put, Remove, Feed;
    var n := |v.table.slots|;
    VisitsAre(v, img, per, n);
    VisitsDefault(v, img, per, n);
    assert Visits(v, img, per, n).table.slots == Hashes(img, per, n, hlen);
    assert From([], n) + Used(Hashes(img, per, n, hlen), hlen, n) == Used(Hashes(img, per, n, hlen), hlen, n);
  }
}
