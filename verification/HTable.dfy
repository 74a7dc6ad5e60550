/** The bucket table in place: digests of all slots in one array, bucket after bucket, and the
    list of the elements in use. Every operation does to the table what the specification
    says. */
module HTable {
  import opened Types
  import opened Seqs
  import opened HashWords
  import opened Spec = TableSpec

  /** The bytes that are used of every digest. */
  function KeysOf(s: seq<Digest>, hlen: nat): (r: seq<Key>)
    requires hlen <= 64
    ensures |r| == |s| && forall i :: 0 <= i < |s| ==> r[i] == s[i][..hlen]
  {
    seq(|s|, i requires 0 <= i < |s| => s[i][..hlen])
  }

  lemma ZeroIsNul(k: Key)
    ensures Zero(k) <==> k == Nul(|k|)
  {}

  lemma KeysUpdate(s: seq<Digest>, hlen: nat, i: nat, d: Digest)
    requires hlen <= 64 && i < |s|
    ensures KeysOf(s[i := d], hlen) == KeysOf(s, hlen)[i := d[..hlen]]
  {}

  lemma SearchStep(s: seq<Key>, k: Key, i: nat, end: nat)
    requires i < end <= |s|
    ensures Search(s, k, i, end) == if s[i] == k then i else Search(s, k, i + 1, end)
  {}

  class Table {
    const nbBkts: nat
    const elPerBkt: nat
    const hlen: nat
    const h: array<Digest>
    var list: seq<nat>

    ghost predicate Valid()
      reads this, h
    {
      hlen <= 64 && Shape(View())
    }

    ghost function View(): Spec.Table
      requires hlen <= 64
      reads this, h
    {
      Spec.Table(nbBkts, elPerBkt, hlen, KeysOf(h[..], hlen), list)
    }

    /** `alloc_htable`. */
    constructor (nbBkts: nat, elPerBkt: nat, hlen: nat)
      requires 0 < nbBkts && 0 < elPerBkt && hlen <= 64
      ensures Valid() && fresh(h) && View() == Empty(nbBkts, elPerBkt, hlen)
    {
      this.nbBkts, this.elPerBkt, this.hlen := nbBkts, elPerBkt, hlen;
      h := new Digest[nbBkts * elPerBkt](_ => Nul(64));
      list := [];
      new;
      forall i | 0 <= i < h.Length ensures h[i][..hlen] == Nul(hlen) { assert h[i] == Nul(64); }
      assert KeysOf(h[..], hlen) == Empty(nbBkts, elPerBkt, hlen).slots;
    }

    /** The first slot of the bucket of a digest. */
    method Locate(d: Digest) returns (base: nat)
      requires Valid()
      ensures base == Home(View(), d[..hlen]) && base + elPerBkt <= h.Length
    {
      assert d[..Deciding(hlen)] == d[..hlen][..Deciding(hlen)];
      HomeInside(View(), d[..hlen]);
      var b := BktNo(d, hlen, nbBkts);
      base := b * elPerBkt;
    }

    /** The loop of `htable_lookup` over a bucket. */
    method FindKey(d: Digest, base: nat) returns (i: nat)
      requires Valid() && base + elPerBkt <= h.Length
      ensures i == Search(View().slots, d[..hlen], base, base + elPerBkt)
    {
      ghost var s, k, end := View().slots, d[..hlen], base + elPerBkt;
      i := base;
      while i < base + elPerBkt
        invariant base <= i <= end
        invariant Search(s, k, base, end) == Search(s, k, i, end)
      {
        SearchStep(s, k, i, end);
        var c := HashCompare(h[i], d, hlen);
        if c == 0 { return; }
        i := i + 1;
      }
    }

    /** The loop of `htable_add` over a bucket. */
    method FindFree(base: nat) returns (i: nat)
      requires Valid() && base + elPerBkt <= h.Length
      ensures i == Search(View().slots, Nul(hlen), base, base + elPerBkt)
    {
      hide Nul, Zero;
      ghost var s, k, end := View().slots, Nul(hlen), base + elPerBkt;
      i := base;
      while i < base + elPerBkt
        invariant base <= i <= end
        invariant Search(s, k, base, end) == Search(s, k, i, end)
      {
        SearchStep(s, k, i, end);
        ZeroIsNul(h[i][..hlen]);
        var free := HashIsZero(h[i], hlen);
        if free { return; }
        i := i + 1;
      }
    }

    /** The loop of `htable_lookup_add`: looks for the digest and notes the first free slot. */
    method FindBoth(d: Digest, base: nat) returns (i: nat, found: bool, e: nat)
      requires Valid() && base + elPerBkt <= h.Length
      ensures i == Search(View().slots, d[..hlen], base, base + elPerBkt)
      ensures i == base + elPerBkt ==>
        (if found then e else i) == Search(View().slots, Nul(hlen), base, i) && (found ==> e < i)
    {
      hide Nul, Zero;
      ghost var s, k, z, end := View().slots, d[..hlen], Nul(hlen), base + elPerBkt;
      i, found, e := base, false, 0;
      while i < base + elPerBkt
        invariant base <= i <= end && (found ==> e < i)
        invariant Search(s, k, base, end) == Search(s, k, i, end)
        invariant Search(s, z, base, end) == if found then e else Search(s, z, i, end)
      {
        SearchStep(s, k, i, end);
        SearchStep(s, z, i, end);
        var c := HashCompare(h[i], d, hlen);
        if c == 0 { return; }
        if !found {
          ZeroIsNul(h[i][..hlen]);
          var free := HashIsZero(h[i], hlen);
          if free { found, e := true, i; }
        }
        i := i + 1;
      }
    }

    /** `htable_lookup`. */
    method Lookup(d: Digest) returns (r: Found)
      requires Valid()
      ensures r == Spec.Lookup(View(), d[..hlen])
    {
      hide Home, Nul, Zero;
      ZeroIsNul(d[..hlen]);
      var zero := HashIsZero(d, hlen);
      if zero { return Fail(EINVAL); }
      var base := Locate(d);
      var i := FindKey(d, base);
      r := if i < base + elPerBkt then Slot(i) else Fail(ENOENT);
    }

    /** Takes slot `i` and appends it to the list. */
    method Insert(i: nat, d: Digest)
      requires Valid() && i < h.Length
      modifies this, h
      ensures View() == old(View()).(slots := old(View()).slots[i := d[..hlen]], order := old(View()).order + [i])
    {
      ghost var before := h[..];
      var c := HashCopy(h[i], d, hlen);
      KeysUpdate(h[..], hlen, i, c);
      h[i] := c;
      assert h[..] == before[i := c];
      list := list + [i];
    }

    /** `htable_add`. */
    method Add(d: Digest) returns (r: Found)
      requires Valid()
      modifies this, h
      ensures (View(), r) == Spec.Add(old(View()), d[..hlen])
    {
      hide Home, Nul, Zero;
      ZeroIsNul(d[..hlen]);
      var zero := HashIsZero(d, hlen);
      if zero { return Fail(EINVAL); }
      var base := Locate(d);
      var i := FindFree(base);
      if base + elPerBkt <= i { return Fail(ENOBUFS); }
      Insert(i, d);
      r := Slot(i);
    }

    /** `htable_lookup_add`. */
    method LookupAdd(d: Digest) returns (r: Found, isNew: bool)
      requires Valid()
      modifies this, h
      ensures (View(), r, isNew) == Spec.LookupAdd(old(View()), d[..hlen])
    {
      hide Home, Nul, Zero, Search, Shape, KeysOf;
      ZeroIsNul(d[..hlen]);
      var zero := HashIsZero(d, hlen);
      if zero { return Fail(EINVAL), false; }
      var base := Locate(d);
      var i, found, e := FindBoth(d, base);
      if i < base + elPerBkt { return Slot(i), false; }
      if !found { return Fail(ENOBUFS), false; }
      Insert(e, d);
      r, isNew := Slot(e), true;
    }

    /** `htable_rm`. */
    method Rm(i: nat)
      requires Valid() && i < h.Length && i in list
      modifies this, h
      ensures View() == Spec.Rm(old(View()), i)
    {
      list := Remove(list, i);
      ClearSlot(i);
    }

    method ClearSlot(i: nat)
      requires Valid() && i < h.Length
      modifies h
      ensures View() == old(View()).(slots := old(View()).slots[i := Nul(hlen)])
    {
      ghost var before := h[..];
      var c := HashClear(h[i], hlen);
      KeysUpdate(h[..], hlen, i, c);
      h[i] := c;
      assert h[..] == before[i := c];
    }

    /** `htable_clear`. */
    method Clear()
      requires Valid() && Listed(View())
      modifies this, h
      ensures View() == Spec.Clear(old(View()))
    {
      ghost var t := View();
      var j := 0;
      while j < |list|
        invariant j <= |list| && Valid() && list == t.order
        invariant |View().slots| == |t.slots|
        invariant forall i :: 0 <= i < |t.slots| ==>
          View().slots[i] == if i in list[..j] then Nul(hlen) else t.slots[i]
      {
        assert list[j] in list && InUse(t, list[j]);
        ClearSlot(list[j]);
        assert list[..j + 1] == list[..j] + [list[j]];
        j := j + 1;
      }
      assert list[..j] == list;
      list := [];
      assert View().slots == Spec.Clear(t).slots;
    }

    /** `shfs_btable_feed`: gives slot `idx` a new digest. */
    method Feed(idx: nat, d: Digest)
      requires Valid() && Listed(View()) && idx < h.Length
      modifies this, h
      ensures View() == Spec.Feed(old(View()), idx, d[..hlen])
    {
      ghost var t := View();
      ZeroIsNul(h[idx][..hlen]);
      assert idx in list <==> InUse(t, idx);
      var free := HashIsZero(h[idx], hlen);
      if !free { list := Remove(list, idx); }
      ghost var before := h[..];
      var c := HashCopy(h[idx], d, hlen);
      KeysUpdate(h[..], hlen, idx, c);
      h[idx] := c;
      assert h[..] == before[idx := c];
      ZeroIsNul(d[..hlen]);
      var zero := HashIsZero(d, hlen);
      if !zero { list := list + [idx]; }
    }
  }
}
