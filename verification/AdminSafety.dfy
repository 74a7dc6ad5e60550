/** The default entry and the containers of the files, over all actions of the tools. */
module AdminSafety {
  import opened Types
  import opened HashWords
  import opened TableSpec
  import opened TableImage
  import opened AdminSpec
  import opened AdminRuns
  import AdminFiles
  import Al = AllocSpec

  // ---------------------------------------------------------------- the default entry

  /** The default entry carries its mark. */
  ghost predicate Faithful(v: Volume)
    requires Sound(v)
  {
    v.def.Some? ==> EntryOf(v, v.def.value).dflt
  }

  /** After writing back and mounting again the default entry is the same exactly if it carries
      its mark. */
  lemma DefaultRestored(v: Volume, reserved: seq<Al.Interval>)
    requires Good(v)
    ensures Restored(v, reserved) && (Load(WriteBack(v), reserved).def == v.def <==> Faithful(v))
  {
    RoundTrip(v, reserved);
    WrittenBack(v);
    assert Marked(v);
  }

  /** The first free slot of a bucket. */
  ghost predicate FirstFree(t: Table, k: Key, i: nat)
    requires Shape(t)
  {
    && Home(t, k) <= i < Home(t, k) + t.elPerBkt && !InUse(t, i)
    && forall j :: Home(t, k) <= j < i ==> InUse(t, j)
  }

  /** The action puts a new entry into slot `i`: it is accepted, and the slot is the first free
      one of the digest's bucket. */
  ghost predicate Fills(v: Volume, action: Action, i: nat)
    requires Sound(v)
  {
    match action
    case DoAddFile(k, fsize, ready, copied) =>
      var c := Al.FirstFit(v.al, 0, v.size, DivRoundUp(fsize, v.chunkSize));
      ready && 0 < c < v.size && Accepts(v, k) && FirstFree(v.table, k[..v.table.hlen], i)
    case DoAddLink(k, chunk, offset, len) => Accepts(v, k) && FirstFree(v.table, k[..v.table.hlen], i)
    case _ => false
  }

  /** An addition takes the first free slot. */
  lemma AddTakes(t: Table, k: Key, i: nat)
    requires Shape(t) && |k| == t.hlen && k != Nul(t.hlen)
    ensures Add(t, k).1 == Slot(i) <==> FirstFree(t, k, i)
  {
    HomeInside(t, k);
    var r := Search(t.slots, Nul(t.hlen), Home(t, k), Home(t, k) + t.elPerBkt);
    hide Home;
    assert r < i && FirstFree(t, k, i) ==> InUse(t, r);
  }

  /** The mark is lost exactly when a new entry takes the slot of a removed default entry,
      because a removal leaves the default entry as it is and an addition clears the mark. */
  lemma StepFaithful(v: Volume, action: Action)
    requires Good(v) && Faithful(v)
    ensures Sound(After(v, action))
    ensures Faithful(After(v, action)) <==> !(v.def.Some? && Fills(v, action, v.def.value))
  {
    hide Inv, Get, Write, Insert, HasRoom, Lookup, AddFile, Accepts, FirstFree;
    StepGood(v, action);
    match action
    case DoAddFile(k, fsize, ready, copied) =>
      AdminFiles.AddFileFrame(v, k, fsize, ready, copied);
      InsertFaithful(v, k, Al.FirstFit(v.al, 0, v.size, DivRoundUp(fsize, v.chunkSize)), 0, fsize, false);
    case DoAddLink(k, chunk, offset, len) =>
      InsertFaithful(v, k, chunk, offset, len, true);
    case DoRmFile(k) => RmGood(v, k); RmDefault(v, k);
    case DoSetDefault(k) => SetDefaultGood(v, k); ClearDefaultFrame(v);
    case DoClearDefault => ClearDefaultGood(v);
  }

  lemma InsertFaithful(v: Volume, k: Digest, chunk: nat, offset: nat, len: nat, link: bool)
    requires Good(v) && Faithful(v)
    ensures var r := Insert(v, k, chunk, offset, len, link);
      && (r.Some? <==> Accepts(v, k))
      && (r.Some? ==> Sound(r.value.0))
      && forall al :: r.Some? ==> (Faithful(r.value.0.(al := al)) <==>
           !(v.def.Some? && FirstFree(v.table, k[..v.table.hlen], v.def.value)))
  {
    hide Inv, Get, Insert, Add, FirstFree, HasRoom, Holds, Home, Lookup;
    InsertGood(v, k, chunk, offset, len, link);
    TakesSlot(v, k, chunk, offset, len, link);
    var r := Insert(v, k, chunk, offset, len, link);
    if r.Some? && v.def.Some? {
      var d := v.def.value;
      AddTakes(v.table, k[..v.table.hlen], d);
      assert EntryOf(r.value.0, d).dflt <==> d != r.value.1;
      assert forall al :: EntryOf(r.value.0.(al := al), d) == EntryOf(r.value.0, d);
    }
  }

  lemma TakesSlot(v: Volume, k: Digest, chunk: nat, offset: nat, len: nat, link: bool)
    requires Sound(v)
    ensures var r := Insert(v, k, chunk, offset, len, link);
      r.Some? ==> Add(v.table, k[..v.table.hlen]).1 == Slot(r.value.1)
  {}

  lemma RmDefault(v: Volume, k: Digest)
    requires Sound(v)
    ensures Sound(RmFile(v, k).0) && RmFile(v, k).0.def == v.def
    ensures !RmFile(v, k).1 ==> RmFile(v, k).0 == v
  {}

  /** It happens: in a table of one slot, making a link the default, removing it and adding
      another one leaves the new link as the default entry, which nobody asked for and which
      is not the default any more after mounting again. */
  lemma DefaultLost(v: Volume, k: Digest, k1: Digest, reserved: seq<Al.Interval>)
    requires Good(v) && v.table.nbBkts == v.table.elPerBkt == 1 && k1[..v.table.hlen] != Nul(v.table.hlen)
    requires InUse(v.table, 0) && v.table.slots[0] == k[..v.table.hlen] && EntryOf(v, 0).link
    ensures var w := AfterAll(v, [DoSetDefault(k), DoRmFile(k), DoAddLink(k1, 0, 0, 0)]);
      && FindIn(w, k1[..v.table.hlen]) == Some(EntryOf(w, 0)) && w.def == Some(0)
      && Restored(w, reserved) && Load(WriteBack(w), reserved).def == None
  {
    hide Home;
    var a := After(v, DoSetDefault(k));
    var b := After(a, DoRmFile(k));
    var c := After(b, DoAddLink(k1, 0, 0, 0));
    hide After, Restored, FindIn, Inv, Shape, Listed, Get, Agree, Clean, Load, WriteBack;
    MadeDefault(v, k);
    Removed(a, k);
    Replaced(b, k1);
    AfterThree(v, DoSetDefault(k), DoRmFile(k), DoAddLink(k1, 0, 0, 0));
    NoDefault(c, reserved);
  }

  lemma AfterThree(v: Volume, x: Action, y: Action, z: Action)
    requires Sound(v) && Sound(After(v, x)) && Sound(After(After(v, x), y)) && Sound(After(After(After(v, x), y), z))
    ensures AfterAll(v, [x, y, z]) == After(After(After(v, x), y), z)
  {
    hide After;
    assert [x, y, z][1..] == [y, z] && [y, z][1..] == [z] && [z][1..] == [];
    assert AfterAll(v, [x, y, z]) == AfterAll(After(v, x), [y, z]);
    assert AfterAll(After(v, x), [y, z]) == AfterAll(After(After(v, x), y), [z]);
  }

  lemma NoDefault(v: Volume, reserved: seq<Al.Interval>)
    requires OneSlot(v) && !EntryOf(v, 0).dflt
    ensures Restored(v, reserved) && Load(WriteBack(v), reserved).def == None
  {
    RoundTrip(v, reserved);
    WrittenBack(v);
  }

  /** A table of one slot. */
  ghost predicate OneSlot(v: Volume) {
    Good(v) && v.table.nbBkts == v.table.elPerBkt == |v.table.slots| == 1
  }

  lemma MadeDefault(v: Volume, k: Digest)
    requires OneSlot(v) && InUse(v.table, 0) && v.table.slots[0] == k[..v.table.hlen] && EntryOf(v, 0).link
    ensures var w := After(v, DoSetDefault(k));
      OneSlot(w) && w.table == v.table && w.def == Some(0) && EntryOf(w, 0).link
  {
    LookupExact(v.table, k[..v.table.hlen], 0);
    SetDefaultGood(v, k);
    hide Inv, Lookup, Get, Write;
  }

  lemma Removed(v: Volume, k: Digest)
    requires OneSlot(v) && InUse(v.table, 0) && v.table.slots[0] == k[..v.table.hlen] && EntryOf(v, 0).link
    ensures var w := After(v, DoRmFile(k));
      OneSlot(w) && w.table.hlen == v.table.hlen && !InUse(w.table, 0) && w.def == v.def
  {
    LookupExact(v.table, k[..v.table.hlen], 0);
    RmGood(v, k);
    hide Inv, Lookup, Get, Write, ClearOf;
  }

  lemma Replaced(v: Volume, k: Digest)
    requires OneSlot(v) && !InUse(v.table, 0) && k[..v.table.hlen] != Nul(v.table.hlen)
    ensures var w := After(v, DoAddLink(k, 0, 0, 0));
      OneSlot(w) && FindIn(w, k[..v.table.hlen]) == Some(EntryOf(w, 0)) && w.def == v.def && !EntryOf(w, 0).dflt
      && w.table.hlen == v.table.hlen
  {
    assert Home(v.table, k[..v.table.hlen]) == 0;
    assert HasRoom(v.table, k[..v.table.hlen]);
    InsertGood(v, k, 0, 0, 0, true);
    InsertFinds(v, k, 0, 0, 0, true, k[..v.table.hlen]);
    hide Inv, Lookup, Get, Insert, CopyOf, FindIn;
  }

  // ---------------------------------------------------------------- a torn addition

  /** Reserving free chunks and giving them back changes nothing. */
  lemma ReservedBack(al: seq<Al.Interval>, size: nat, c: nat, csize: nat)
    requires Al.InArea(al, size) && Al.FreeAt(al, size, c, csize) && 0 < csize
    ensures Al.Unregister(Al.Register(al, c, csize), c, csize) == al
  {
    var e := Al.Interval(c, c + csize);
    var k := Al.Before(al, c);
    var a := Al.Register(al, c, csize);
    assert forall i :: 0 <= i < k ==> a[i] == al[i] && !Al.Overlap(al[i], e);
    assert a[k] == e;
    assert a[..k] + a[k + 1..] == al;
  }

  /** The file was entered under its digest, with its container at `c`; others are found as
      before. */
  ghost predicate Entered(v: Volume, w: Volume, k: Digest, c: nat, fsize: nat)
    requires Sound(v)
  {
    && Good(w) && w.table.hlen == v.table.hlen && w.size == v.size && w.chunkSize == v.chunkSize
    && (forall k1 :: |k1| == v.table.hlen && k1 != k[..v.table.hlen] ==> FindIn(w, k1) == FindIn(v, k1))
    && var r := FindIn(w, k[..v.table.hlen]);
      r.Some? && r.value.chunk == c && r.value.offset == 0 && r.value.len == fsize && !r.value.link
  }

  lemma FileEntered(v: Volume, k: Digest, fsize: nat, copied: bool)
    requires Good(v) && Accepts(v, k) && Al.Ok(v.al, v.size)
    requires 0 < Al.FirstFit(v.al, 0, v.size, DivRoundUp(fsize, v.chunkSize)) < v.size
    ensures var csize := DivRoundUp(fsize, v.chunkSize);
      var c := Al.FirstFit(v.al, 0, v.size, csize);
      var w := After(v, DoAddFile(k, fsize, true, copied));
      Entered(v, w, k, c, fsize) && Good(w) && (!copied && 0 < fsize ==> w.al == v.al)
  {
    hide Inv, Get, Insert, Accepts, AddFile, FindIn, CopyOf, Agree, Clean;
    hide Al.FirstFit, Al.Ok, Al.Register, Al.Unregister;
    var csize := DivRoundUp(fsize, v.chunkSize);
    var c := Al.FirstFit(v.al, 0, v.size, csize);
    StepGood(v, DoAddFile(k, fsize, true, copied));
    AdminFiles.AddFileFrame(v, k, fsize, true, copied);
    InsertGood(v, k, c, 0, fsize, false);
    Gap(v.al, v.size, csize);
    if 0 < fsize {
      Chunks(fsize, v.chunkSize);
      ReservedBack(v.al, v.size, c, csize);
    }
    var (x, i) := Insert(v, k, c, 0, fsize, false).value;
    var w := After(v, DoAddFile(k, fsize, true, copied));
    forall k1 | |k1| == v.table.hlen
      ensures FindIn(w, k1) == if k1 == k[..v.table.hlen] then Some(EntryOf(x, i)) else FindIn(v, k1)
    {
      InsertFinds(v, k, c, 0, fsize, false, k1);
      OtherList(x, w.al, k1);
    }
  }

  lemma Gap(al: seq<Al.Interval>, size: nat, csize: nat)
    requires Al.Ok(al, size) && 0 < Al.FirstFit(al, 0, size, csize)
    ensures Al.InArea(al, size) && Al.FreeAt(al, size, Al.FirstFit(al, 0, size, csize), csize)
  {
    hide Al.FirstFit;
    Al.FirstFitExact(al, size, csize);
  }

  lemma OtherList(v: Volume, al: seq<Al.Interval>, k: Key)
    requires Sound(v)
    ensures FindIn(v.(al := al), k) == FindIn(v, k)
  {}

  lemma Chunks(fsize: nat, chunkSize: nat)
    requires 0 < fsize && 0 < chunkSize
    ensures 0 < DivRoundUp(fsize, chunkSize)
  {}

  /** After an addition whose contents could not be copied, the next file of the same size is
      given the same chunks: the volume then has two files in one container. */
  lemma TornOverlaps(v: Volume, k: Digest, k1: Digest, fsize: nat, reserved: multiset<Al.Interval>)
    requires Good(v) && AdminFiles.Booked(v, reserved) && 0 < fsize
    requires AdminFiles.Torn(v, DoAddFile(k, fsize, true, false))
    requires Sound(After(v, DoAddFile(k, fsize, true, false)))
    requires Accepts(After(v, DoAddFile(k, fsize, true, false)), k1)
    ensures var u := AfterAll(v, [DoAddFile(k, fsize, true, false), DoAddFile(k1, fsize, true, true)]);
      var a, b := FindIn(u, k[..v.table.hlen]), FindIn(u, k1[..v.table.hlen]);
      && k[..v.table.hlen] != k1[..v.table.hlen] && a.Some? && b.Some? && !a.value.link && !b.value.link
      && Al.Overlap(Block(a.value, v.chunkSize), Block(b.value, v.chunkSize))
  {
    hide *;
    var x, y := DoAddFile(k, fsize, true, false), DoAddFile(k1, fsize, true, true);
    GoodSound(v);
    var w := After(v, x);
    TornInOrder(v, k, fsize, reserved);
    FileEntered(v, k, fsize, false);
    EnteredKeeps(v, w, k, k1, Al.FirstFit(v.al, 0, v.size, DivRoundUp(fsize, v.chunkSize)), fsize);
    FileEntered(w, k1, fsize, true);
    GoodSound(After(w, y));
    AfterTwo(v, x, y);
    SameContainer(v, w, After(w, y), k, k1, Al.FirstFit(v.al, 0, v.size, DivRoundUp(fsize, v.chunkSize)), fsize);
  }

  lemma GoodSound(v: Volume)
    requires Good(v)
    ensures Sound(v) && 0 < v.chunkSize
  {}

  lemma TornInOrder(v: Volume, k: Digest, fsize: nat, reserved: multiset<Al.Interval>)
    requires Sound(v) && AdminFiles.Booked(v, reserved) && AdminFiles.Torn(v, DoAddFile(k, fsize, true, false))
    ensures Al.Ok(v.al, v.size) && Accepts(v, k)
    ensures 0 < Al.FirstFit(v.al, 0, v.size, DivRoundUp(fsize, v.chunkSize)) < v.size
  {}

  lemma EnteredKeeps(v: Volume, w: Volume, k: Digest, k1: Digest, c: nat, fsize: nat)
    requires Good(v) && Entered(v, w, k, c, fsize) && Sound(w) && Accepts(w, k1)
    ensures Good(w) && w.size == v.size && w.chunkSize == v.chunkSize && w.table.hlen == v.table.hlen
    ensures k[..v.table.hlen] != k1[..v.table.hlen]
  {
    hide Inv, Get, Home, HasRoom, FindIn, Agree, Clean;
    FindExact(w, k[..v.table.hlen], 0);
  }

  lemma SameContainer(v: Volume, w: Volume, u: Volume, k: Digest, k1: Digest, c: nat, fsize: nat)
    requires Sound(v) && Entered(v, w, k, c, fsize) && Sound(w) && Entered(w, u, k1, c, fsize) && 0 < fsize
    requires k[..v.table.hlen] != k1[..v.table.hlen]
    ensures var a, b := FindIn(u, k[..v.table.hlen]), FindIn(u, k1[..v.table.hlen]);
      && a.Some? && b.Some? && !a.value.link && !b.value.link
      && Al.Overlap(Block(a.value, v.chunkSize), Block(b.value, v.chunkSize))
  {
    hide Good, FindIn;
    Chunks(fsize, v.chunkSize);
  }

  lemma AfterTwo(v: Volume, x: Action, y: Action)
    requires Sound(v) && Sound(After(v, x)) && Sound(After(After(v, x), y))
    ensures AfterAll(v, [x, y]) == After(After(v, x), y)
  {
    hide After;
    assert [x, y][1..] == [y] && [y][1..] == [];
    assert AfterAll(v, [x, y]) == AfterAll(After(v, x), [y]);
  }

  // ---------------------------------------------------------------- what the actions answer

  /** A file is added exactly if it could be read, written and entered and there was room for it;
      it is then found under its digest with the container that was reserved. Without an entry all
      lookups are as before. */
  lemma AddFileAnswer(v: Volume, k: Digest, fsize: nat, ready: bool, copied: bool)
    requires Good(v) && Al.Ok(v.al, v.size)
    ensures var c := Al.FirstFit(v.al, 0, v.size, DivRoundUp(fsize, v.chunkSize));
      var (w, ok) := AddFile(v, k, fsize, ready, copied);
      && (ok <==> ready && copied && Accepts(v, k) && 0 < c < v.size)
      && (ready && Accepts(v, k) && 0 < c < v.size ==> Entered(v, w, k, c, fsize))
      && (!(ready && Accepts(v, k) && 0 < c < v.size) ==>
            Sound(w) && forall k1 :: |k1| == v.table.hlen ==> FindIn(w, k1) == FindIn(v, k1))
  {
    hide Inv, Get, Insert, Accepts, Al.FirstFit, Al.Ok, Al.Register, Al.Unregister, FindIn, Agree, Clean, Entered;
    var c := Al.FirstFit(v.al, 0, v.size, DivRoundUp(fsize, v.chunkSize));
    AdminFiles.AddFileFrame(v, k, fsize, ready, copied);
    InsertAnswer(v, k, c, fsize);
    if ready && Accepts(v, k) && 0 < c < v.size {
      FileEntered(v, k, fsize, copied);
    } else {
      var w := AddFile(v, k, fsize, ready, copied).0;
      forall k1 | |k1| == v.table.hlen ensures FindIn(w, k1) == FindIn(v, k1) { OtherList(v, w.al, k1); }
    }
  }

  lemma InsertAnswer(v: Volume, k: Digest, c: nat, fsize: nat)
    requires Good(v)
    ensures forall al :: Insert(v.(al := al), k, c, 0, fsize, false).Some? <==> Accepts(v, k)
  {
    hide Inv, Get, Insert, Accepts;
    AdminFiles.InsertAl(v, k, c, fsize);
    InsertGood(v, k, c, 0, fsize, false);
  }

  /** A link is added exactly if its digest is accepted; it is then found with just the attributes
      that were asked for. */
  lemma AddLinkAnswer(v: Volume, k: Digest, chunk: nat, offset: nat, len: nat, k1: Key)
    requires Good(v) && |k1| == v.table.hlen
    ensures var (w, ok) := AddLink(v, k, chunk, offset, len);
      && Good(w) && w.al == v.al && w.def == v.def && (ok <==> Accepts(v, k)) && (!ok ==> w == v)
      && (ok && k1 != k[..v.table.hlen] ==> FindIn(w, k1) == FindIn(v, k1))
      && (ok && k1 == k[..v.table.hlen] ==> var r := FindIn(w, k1);
           && r.Some? && r.value.link && !r.value.dflt
           && r.value.chunk == chunk && r.value.offset == offset && r.value.len == len)
  {
    hide Inv, Get, Insert, Accepts, FindIn, CopyOf;
    InsertGood(v, k, chunk, offset, len, true);
    if Accepts(v, k) { InsertFinds(v, k, chunk, offset, len, true, k1); }
  }

  /** The default is set exactly if the digest is there; the entry of the digest is then the only
      one with the mark. */
  lemma SetDefaultAnswer(v: Volume, k: Digest, i: nat)
    requires Good(v) && i < |v.table.slots|
    ensures var (w, ok) := SetDefault(v, k);
      && Good(w) && (ok <==> Holds(v.table, k[..v.table.hlen])) && (!ok ==> w == v)
      && (ok ==> w.table == v.table && w.al == v.al)
      && (ok ==> (w.def == Some(i) <==> InUse(v.table, i) && v.table.slots[i] == k[..v.table.hlen]))
      && (ok ==> EntryOf(w, i) == EntryOf(v, i).(dflt := w.def == Some(i)))
  {
    hide Inv, Get, Write, Lookup;
    LookupExact(v.table, k[..v.table.hlen], i);
    SetDefaultGood(v, k);
    ClearDefaultFrame(v);
  }

  lemma ClearDefaultAnswer(v: Volume, i: nat)
    requires Good(v) && i < |v.table.slots|
    ensures var w := ClearDefault(v);
      Good(w) && w.def == None && w.table == v.table && w.al == v.al && EntryOf(w, i) == EntryOf(v, i).(dflt := false)
  {
    hide Inv, Get, Write;
    ClearDefaultGood(v);
    ClearDefaultFrame(v);
  }
}
