/** The tools' volume in place: the bucket table, the chunk cache with its marks and the
    allocator's list are updated by the actions, and every action does what the
    specification says. */
module AdminTool {
  import opened Types
  import opened HashWords
  import opened Spec = TableSpec
  import opened TableImage
  import opened AdminSpec
  import opened AllocList
  import AdminFiles
  import AdminRuns
  import AdminMount
  import Al = AllocSpec
  import Arith
  import Remount
  import HTable

  class Admin {
    const bt: HTable.Table
    const per: nat
    const cache: array<seq<HEntry>>
    const state: array<bool>
    var def: Option<nat>
    const disk: array<seq<HEntry>>
    const bak: array?<seq<HEntry>>
    const al: AList
    const chunkSize: nat

    ghost predicate Valid()
      reads this, bt, bt.h, cache, state, disk, bak, al, al.spine
    {
      && bt.Valid() && al.Valid() && al.end < Al.WORD && cache != disk && bak != cache && bak != disk
      && Sound(View())
    }

    ghost function View(): Volume
      requires bt.hlen <= 64
      reads this, bt, bt.h, cache, state, disk, bak, al, al.spine
    {
      Volume(bt.View(), per, cache[..], state[..], def, disk[..],
             if bak == null then None else Some(bak[..]), al.View(), al.end, chunkSize)
    }

    /** What is there before the table is read: an empty bucket table, and no buffer for any
        chunk. */
    constructor (disk: array<seq<HEntry>>, bak: array?<seq<HEntry>>, nbBkts: nat, elPerBkt: nat, hlen: nat,
                 per: nat, size: nat, chunkSize: nat)
      requires 0 < nbBkts && 0 < elPerBkt && hlen <= 64 && bak != disk
      ensures bt.Valid() && al.Valid() && this.disk == disk && this.bak == bak && this.per == per
      ensures fresh(bt) && fresh(bt.h) && fresh(cache) && fresh(state) && fresh(al) && al.spine == []
      ensures bt.View() == Empty(nbBkts, elPerBkt, hlen) && def == None && al.View() == [] && al.end == size
      ensures cache.Length == state.Length == disk.Length && this.chunkSize == chunkSize
    {
      bt := new HTable.Table(nbBkts, elPerBkt, hlen);
      cache := new seq<HEntry>[disk.Length](_ => []);
      state := new bool[disk.Length](_ => false);
      def := None;
      this.disk, this.bak, this.per, this.chunkSize := disk, bak, per, chunkSize;
      al := new AList(size);
    }

    /** `load_vol_htable`: a chunk is read when the first of its entries is reached. */
    method LoadTable()
      requires bt.Valid() && bt.View() == Empty(bt.nbBkts, bt.elPerBkt, bt.hlen) && def == None
      requires Sized(disk[..], per, bt.h.Length) && disk.Length == Remount.Chunks(bt.h.Length, per)
      requires cache.Length == state.Length == disk.Length && cache != disk
      modifies this`def, bt, bt.h, cache, state
      ensures bt.Valid() && bt.View() == Loaded(disk[..], per, bt.nbBkts, bt.elPerBkt, bt.hlen)
      ensures def == LastDefault(disk[..], per, bt.h.Length)
      ensures cache[..] == disk[..] && forall c :: 0 <= c < state.Length ==> !state[c]
    {
      hide Remount.Visits, Listed, Loaded, Empty, Remount.Chunks, Shape, LastDefault;
      ghost var img := disk[..];
      ghost var v := Remount.Vol(bt.View(), img, None);
      Start(v, img, per);
      var have, curChk := false, 0;
      for i := 0 to bt.h.Length
        invariant FedTo(v, img, i) && disk[..] == img
        invariant have == (0 < i) && (have ==> curChk == Chk(i - 1, per) < cache.Length)
        invariant have ==> cache[..curChk + 1] == img[..curChk + 1] && forall c :: 0 <= c <= curChk ==> !state[c]
      {
        var curHtchk := Chk(i, per);
        ChkNext(i, per);
        if curChk != curHtchk || !have {
          cache[curHtchk] := disk[curHtchk];
          state[curHtchk] := false;
          curChk := curHtchk;
          have := true;
        }
        var hentry := cache[curHtchk][Off(i, per)];
        FeedEntry(i, hentry, v, img);
      }
      Remount.Complete(v, img, per, bt.nbBkts, bt.elPerBkt, bt.hlen);
      LastChk(bt.h.Length, per);
    }

    /** The bucket table and the default entry are those after the first `i` entries. */
    ghost predicate FedTo(v: Remount.Vol, img: Image, i: nat)
      reads this, bt, bt.h
    {
      && bt.Valid() && Listed(bt.View()) && Remount.Fit(v, img, per) && v.def == None && v.cache == img
      && i <= bt.h.Length == |v.table.slots| && bt.hlen == v.table.hlen
      && bt.View() == Remount.Visits(v, img, per, i).table && def == Remount.Visits(v, img, per, i).def
    }

    method FeedEntry(i: nat, hentry: HEntry, ghost v: Remount.Vol, ghost img: Image)
      requires FedTo(v, img, i) && i < bt.h.Length && hentry == Get(img, per, i)
      modifies this`def, bt, bt.h
      ensures FedTo(v, img, i + 1)
    {
      hide Remount.Visits, Feed, Listed, Shape, Get;
      Remount.VisitsNext(v, img, per, i);
      FeedListed(bt.View(), i, hentry.hash[..bt.hlen]);
      bt.Feed(i, hentry.hash);
      if hentry.dflt { def := Some(i); }
    }

    /** The first part of `load_vol_alist`: the label, the table, and its backup if there is
        one. `memory(k)` says that there is memory for registration `k`; `booked` tells that none
        ran out of it. */
    method LoadReserved(tableRef: nat, backupRef: nat, tableLen: nat, memory: nat -> bool) returns (booked: bool)
      requires al.Valid() && al.View() == []
      modifies al, al.spine
      ensures al.Valid() && (booked ==> al.View() == Reserved(tableRef, backupRef, tableLen))
      ensures booked <==> memory(0) && memory(1) && (backupRef != 0 ==> memory(2))
      ensures forall i {:trigger al.spine[i]} :: 0 <= i < |al.spine| ==>
        al.spine[i] in old(al.spine) || fresh(al.spine[i])
    {
      hide Al.Register;
      booked := al.Add(0, 2, memory(0));
      if !booked { return; }
      booked := al.Add(tableRef, tableLen, memory(1));
      if !booked { return; }
      if backupRef != 0 { booked := al.Add(backupRef, tableLen, memory(2)); }
    }

    /** The second part: the containers of all entries on the table's list. */
    method LoadContainers(memory: nat -> bool) returns (booked: bool)
      requires bt.Valid() && al.Valid() && 0 < chunkSize && Sized(cache[..], per, bt.h.Length)
      requires forall j :: 0 <= j < |bt.list| ==> bt.list[j] < bt.h.Length
      modifies al, al.spine
      ensures al.Valid()
      ensures booked <==> forall j :: 3 <= j < 3 + |bt.list| ==> memory(j)
      ensures booked ==> al.View() == Registered(old(al.View()), cache[..], per, bt.list, bt.h.Length, chunkSize)
    {
      hide Al.Register, Sized, Registered, Get;
      AdminFiles.RegisteredNone(al.View(), cache[..], per, bt.h.Length, chunkSize);
      ghost var reserved, m, order := al.View(), cache[..], bt.list;
      for j := 0 to |bt.list|
        invariant al.Valid() && cache[..] == m && bt.list == order
        invariant forall i {:trigger al.spine[i]} :: 0 <= i < |al.spine| ==>
          al.spine[i] in old(al.spine) || fresh(al.spine[i])
        invariant al.View() == Registered(reserved, m, per, order[..j], bt.h.Length, chunkSize)
        invariant forall x :: 3 <= x < 3 + j ==> memory(x)
      {
        var i := bt.list[j];
        InCache(m, per, bt.h.Length, i);
        var hentry := cache[Chk(i, per)][Off(i, per)];
        assert order[..j + 1] == order[..j] + [i];
        RegisteredMore(reserved, m, per, order[..j], i, bt.h.Length, chunkSize);
        booked := al.Add(hentry.chunk, Size(hentry, chunkSize), memory(3 + j));
        if !booked { return; }
      }
      assert order[..|order|] == order;
      booked := true;
    }

    /** `mount_shfs` without finding the members: the volume is then what loading the image on
        its disk gives. */
    method Mount(tableRef: nat, backupRef: nat, tableLen: nat, memory: nat -> bool) returns (booked: bool)
      requires bt.Valid() && bt.View() == Empty(bt.nbBkts, bt.elPerBkt, bt.hlen) && def == None && 0 < chunkSize
      requires Sized(disk[..], per, bt.h.Length) && disk.Length == Remount.Chunks(bt.h.Length, per)
      requires cache.Length == state.Length == disk.Length && (bak != null ==> bak.Length == disk.Length)
      requires cache != disk && bak != cache && bak != disk
      requires al.Valid() && al.View() == [] && al.end < Al.WORD
      modifies this`def, bt, bt.h, cache, state, al, al.spine
      ensures (forall k :: memory(k)) ==> booked
      ensures booked ==> Valid() && View() == Load(View(), Reserved(tableRef, backupRef, tableLen))
      ensures booked ==> AdminMount.Mountable(View()) && (AdminRuns.Good(View()) <==> AdminMount.Proper(View()))
    {
      hide Loaded, Shape;
      hide Remount.Chunks, Al.Register, Reserved;
      LoadTable();
      Enumerated(bt.View(), disk[..], per);
      booked := LoadReserved(tableRef, backupRef, tableLen, memory);
      if !booked { return; }
      booked := LoadContainers(memory);
      if booked {
        assert state[..] == seq(disk.Length, _ => false);
        AdminMount.MountGood(View(), Reserved(tableRef, backupRef, tableLen));
      }
    }

    /** An entry is overwritten in the chunk cache and its chunk marked. */
    method WriteEntry(i: nat, e: HEntry)
      requires Valid() && i < bt.h.Length
      modifies cache, state
      ensures Valid() && View() == Write(old(View()), i, e)
    {
      ghost var v := View();
      var c := Chk(i, per);
      cache[c] := cache[c][Off(i, per) := e];
      state[c] := true;
      assert cache[..] == Put(v.cache, per, i, e) && state[..] == v.modified[c := true];
    }

    /** The common part of adding files and links. */
    method InsertEntry(k: Digest, chunk: nat, offset: nat, len: nat, link: bool) returns (ok: bool)
      requires Valid()
      modifies bt, bt.h, cache, state
      ensures Valid()
      ensures var r := Insert(old(View()), k, chunk, offset, len, link);
        ok == r.Some? && View() == if ok then r.value.0 else old(View())
    {
      hide Spec.Lookup, Write, CopyOf, Home, Search, Insert;
      ghost var v := View();
      InsertIs(v, k, chunk, offset, len, link);
      var r := bt.Lookup(k);
      if r.Slot? { return false; }
      AddShape(bt.View(), k[..bt.hlen]);
      r := bt.Add(k);
      if r.Fail? { return false; }
      var h := cache[Chk(r.i, per)][Off(r.i, per)].hash;
      var c := HashCopy(h, k, bt.hlen);
      assert View() == v.(table := Spec.Add(v.table, k[..v.table.hlen]).0);
      WriteEntry(r.i, HEntry(c, chunk, offset, len, link, false));
      ok := true;
    }

    /** A container is given back to the allocator. */
    method Release(start: nat, len: nat) returns (found: bool)
      requires Valid()
      modifies al, al.spine
      ensures Valid() && View() == old(View()).(al := Al.Unregister(old(View()).al, start, len))
      ensures forall i {:trigger al.spine[i]} :: 0 <= i < |al.spine| ==> al.spine[i] in old(al.spine)
      ensures found <==> Al.Interval(start, start + len) in old(View()).al
    {
      found := al.Remove(start, len);
    }

    /** `actn_addfile`, from the search for a container on. `ready` says whether the buffer can
        be allocated and the digest computed, `copied` whether the contents can be written.
        `memory` says whether there is memory to register the container, and `booked` that it did
        not run out; the source does not ask. */
    method AddFile(k: Digest, fsize: nat, ready: bool, copied: bool, memory: bool) returns (ok: bool, booked: bool)
      requires Valid()
      modifies bt, bt.h, cache, state, al, al.spine
      ensures memory ==> booked
      ensures booked ==> Valid() && (View(), ok) == AdminSpec.AddFile(old(View()), k, fsize, ready, copied)
    {
      hide Al.Area, Al.Right;
      hide Insert, Al.FirstFit, Al.Register, Al.Unregister, DivRoundUp, Shape, Sized;
      ghost var v := View();
      var csize := DivRoundUp(fsize, chunkSize);
      var cchk := al.FindFree(csize);
      if cchk == 0 || al.end <= cchk { return false, true; }
      booked := al.Add(cchk, csize, memory);
      if !booked { return false, false; }
      assert View() == v.(al := Al.Register(v.al, cchk, csize));
      ok := false;
      if ready { ok := InsertEntry(k, cchk, 0, fsize, false); }
      if !ok || !copied {
        var found := Release(cchk, csize);
        ok := false;
      }
    }

    /** `actn_addlink`. */
    method AddLink(k: Digest, chunk: nat, offset: nat, len: nat) returns (ok: bool)
      requires Valid()
      modifies bt, bt.h, cache, state
      ensures Valid() && (View(), ok) == AdminSpec.AddLink(old(View()), k, chunk, offset, len)
    {
      ok := InsertEntry(k, chunk, offset, len, true);
    }

    /** `actn_cleardefault`. */
    method ClearDefault()
      requires Valid()
      modifies this`def, cache, state
      ensures Valid() && View() == AdminSpec.ClearDefault(old(View()))
    {
      if def != None {
        var e := cache[Chk(def.value, per)][Off(def.value, per)];
        WriteEntry(def.value, e.(dflt := false));
        def := None;
      }
    }

    /** `actn_setdefault`. */
    method SetDefault(k: Digest) returns (ok: bool)
      requires Valid()
      modifies this`def, cache, state
      ensures Valid() && (View(), ok) == AdminSpec.SetDefault(old(View()), k)
    {
      hide Spec.Lookup;
      var r := bt.Lookup(k);
      if r.Fail? { return false; }
      ClearDefault();
      var e := cache[Chk(r.i, per)][Off(r.i, per)];
      WriteEntry(r.i, e.(dflt := true));
      def := Some(r.i);
      ok := true;
    }

    /** `actn_rmfile`. */
    method RmFile(k: Digest) returns (ok: bool)
      requires Valid() && Listed(bt.View())
      modifies bt, bt.h, cache, state, al, al.spine
      ensures Valid() && (View(), ok) == AdminSpec.RmFile(old(View()), k)
    {
      hide Spec.Lookup, Al.Unregister, ClearOf, Write;
      ghost var v := View();
      var r := bt.Lookup(k);
      if r.Fail? { return false; }
      assert r.i in bt.list;
      var e := cache[Chk(r.i, per)][Off(r.i, per)];
      if !e.link {
        var found := Release(e.chunk, Size(e, chunkSize));
        Released(v.al, e, chunkSize, found);
        if !found { return false; }
      }
      ClearEntry(r.i, e);
      ok := true;
    }

    /** An element leaves the bucket table, and the digest of its entry is cleared. */
    method ClearEntry(i: nat, e: HEntry)
      requires Valid() && i < bt.h.Length && i in bt.list
      modifies bt, bt.h, cache, state
      ensures Valid()
      ensures View() == Write(old(View()).(table := Rm(old(View()).table, i)), i, e.(hash := ClearOf(e.hash, bt.hlen)))
    {
      hide ClearOf, Write;
      ghost var v := View();
      bt.Rm(i);
      var h := HashClear(e.hash, bt.hlen);
      assert View() == v.(table := Rm(v.table, i));
      WriteEntry(i, e.(hash := h));
    }

    /** The loop of `umount_shfs`. */
    method WriteBack()
      requires Valid()
      modifies disk, bak
      ensures Valid() && View() == AdminSpec.WriteBack(old(View()))
    {
      hide Shape, Sized, UpTo, Written;
      ghost var v := View();
      Marked(v.disk, v.cache, v.modified, 0);
      if bak != null { Marked(v.bak.value, v.cache, v.modified, 0); }
      for i := 0 to cache.Length
        invariant disk[..] == UpTo(v.disk, v.cache, v.modified, i)
        invariant bak != null ==> bak[..] == UpTo(v.bak.value, v.cache, v.modified, i)
      {
        Marked(v.disk, v.cache, v.modified, i);
        if bak != null { Marked(v.bak.value, v.cache, v.modified, i); }
        WriteChunk(i);
      }
    }

    /** One round of it: a marked chunk goes to both copies. */
    method WriteChunk(i: nat)
      requires i < cache.Length == state.Length == disk.Length && (bak != null ==> bak.Length == disk.Length)
      requires cache != disk && bak != cache && bak != disk
      modifies disk, bak
      ensures disk[..] == if state[i] then old(disk[..])[i := cache[i]] else old(disk[..])
      ensures bak != null ==> bak[..] == if state[i] then old(bak[..])[i := cache[i]] else old(bak[..])
    {
      if state[i] {
        disk[i] := cache[i];
        if bak != null { bak[i] := cache[i]; }
      }
    }
  }

  /** The list of a loaded table has only its slots. */
  lemma Enumerated(t: Spec.Table, m: Image, per: nat)
    requires Shape(t) && Sized(m, per, |t.slots|) && t == Loaded(m, per, t.nbBkts, t.elPerBkt, t.hlen)
    ensures forall j :: 0 <= j < |t.order| ==> t.order[j] < |t.slots|
  {}

  /** An image after the marked ones among its first `i` chunks were written. */
  ghost function UpTo(m: Image, cache: Image, modified: seq<bool>, i: nat): Image
    requires |m| == |cache| == |modified|
  {
    seq(|m|, c requires 0 <= c < |m| => if c < i && modified[c] then cache[c] else m[c])
  }

  lemma Marked(m: Image, cache: Image, modified: seq<bool>, i: nat)
    requires |m| == |cache| == |modified|
    ensures UpTo(m, cache, modified, 0) == m && UpTo(m, cache, modified, |m|) == Written(m, cache, modified)
    ensures var u := UpTo(m, cache, modified, i);
      i < |m| ==> UpTo(m, cache, modified, i + 1) == if modified[i] then u[i := cache[i]] else u
  {}

  lemma Released(al: seq<Al.Interval>, e: HEntry, chunkSize: nat, found: bool)
    requires 0 < chunkSize && (found <==> Al.Interval(e.chunk, e.chunk + Size(e, chunkSize)) in al)
    ensures found <==> Block(e, chunkSize) in al
    ensures !found ==> Al.Unregister(al, e.chunk, Size(e, chunkSize)) == al
  {
    if !found { Al.UnregisterNone(al, e.chunk, Size(e, chunkSize)); }
  }

  lemma ChkNext(i: nat, per: nat)
    requires 0 < per
    ensures Chk(0, per) == 0
    ensures 0 < i ==> Chk(i, per) == Chk(i - 1, per) || Chk(i, per) == Chk(i - 1, per) + 1
  {
    Arith.DivUnique(0, per, 0, 0);
    if 0 < i {
      var q, r := (i - 1) / per, (i - 1) % per;
      assert i - 1 == q * per + r;
      if r + 1 < per {
        Arith.DivUnique(i, per, q, r + 1);
      } else {
        assert (q + 1) * per == q * per + per;
        Arith.DivUnique(i, per, q + 1, 0);
      }
    }
  }

  lemma LastChk(n: nat, per: nat)
    requires 0 < per && 0 < n
    ensures Chk(n - 1, per) == Remount.Chunks(n, per) - 1
  {
    var k := Remount.Chunks(n, per);
    Remount.ChunksAre(n, per);
    assert k * per == (k - 1) * per + per;
    Arith.DivUnique(n - 1, per, k - 1, n - 1 - (k - 1) * per);
  }

  lemma Start(v: Remount.Vol, img: Image, per: nat)
    requires Shape(v.table) && Sized(img, per, |v.table.slots|) && v.cache == img && v.def == None
    requires v.table == Empty(v.table.nbBkts, v.table.elPerBkt, v.table.hlen)
    ensures Remount.Fit(v, img, per) && Remount.Visits(v, img, per, 0) == v && Listed(v.table)
    ensures 0 < |v.table.slots| == v.table.nbBkts * v.table.elPerBkt
  {
    EmptyInv(v.table.nbBkts, v.table.elPerBkt, v.table.hlen);
    Remount.ShapeSome(v.table);
  }

  /** An insertion is an addition to the bucket table followed by a write. */
  lemma InsertIs(v: Volume, k: Digest, chunk: nat, offset: nat, len: nat, link: bool)
    requires Sound(v)
    ensures var key, (t, r) := k[..v.table.hlen], Spec.Add(v.table, k[..v.table.hlen]);
      if Spec.Lookup(v.table, key).Slot? || r.Fail? then Insert(v, k, chunk, offset, len, link) == None
      else
        var u := v.(table := t);
        var e := HEntry(CopyOf(EntryOf(v, r.i).hash, k, v.table.hlen), chunk, offset, len, link, false);
        Sound(u) && Insert(v, k, chunk, offset, len, link) == Some((Write(u, r.i, e), r.i))
  {
    AddShape(v.table, k[..v.table.hlen]);
  }

  lemma RegisteredMore(al: seq<Al.Interval>, m: Image, per: nat, order: seq<nat>, i: nat, n: nat, chunkSize: nat)
    requires Sized(m, per, n) && 0 < chunkSize && (forall j :: 0 <= j < |order| ==> order[j] < n) && i < n
    ensures 0 < per && Chk(i, per) < |m| && |m[Chk(i, per)]| == per
    ensures var e := m[Chk(i, per)][Off(i, per)];
      Registered(al, m, per, order + [i], n, chunkSize) ==
        Al.Register(Registered(al, m, per, order, n, chunkSize), e.chunk, Size(e, chunkSize))
  {
    assert (order + [i])[..|order|] == order;
  }

  lemma InCache(m: Image, per: nat, n: nat, i: nat)
    requires Sized(m, per, n) && i < n
    ensures 0 < per && Chk(i, per) < |m| && |m[Chk(i, per)]| == per
  {}
}
