/** The containers of the files on a volume: the allocator's list is always the reserved areas
    and the containers of the files in the table, and so no two files overlap. */
module AdminFiles {
  import opened Types
  import opened HashWords
  import opened TableSpec
  import opened TableImage
  import opened AdminSpec
  import opened AdminRuns
  import Al = AllocSpec
  import Arith

  /** The entry is a file. */
  ghost predicate IsFile(e: HEntry, hlen: nat)
    requires hlen <= 64
  {
    e.hash[..hlen] != Nul(hlen) && !e.link
  }

  ghost function Held(e: HEntry, hlen: nat, chunkSize: nat): multiset<Al.Interval>
    requires hlen <= 64 && 0 < chunkSize
  {
    if IsFile(e, hlen) then multiset{Block(e, chunkSize)} else multiset{}
  }

  /** The containers of the files among the first `k` entries. */
  ghost function Containers(m: Image, per: nat, k: nat, hlen: nat, chunkSize: nat): multiset<Al.Interval>
    requires Sized(m, per, k) && hlen <= 64 && 0 < chunkSize
  {
    if k == 0 then multiset{}
    else Containers(m, per, k - 1, hlen, chunkSize) + Held(Get(m, per, k - 1), hlen, chunkSize)
  }

  ghost function Files(v: Volume): multiset<Al.Interval>
    requires Sound(v)
  {
    Containers(v.cache, v.per, |v.table.slots|, v.table.hlen, v.chunkSize)
  }

  lemma {:induction false} ContainersUpdate(m: Image, m1: Image, per: nat, k: nat, i: nat, hlen: nat, chunkSize: nat)
    requires Sized(m, per, k) && Sized(m1, per, k) && hlen <= 64 && 0 < chunkSize && i < k
    requires forall j: nat :: j < k && j != i ==> Get(m1, per, j) == Get(m, per, j)
    ensures Containers(m1, per, k, hlen, chunkSize) + Held(Get(m, per, i), hlen, chunkSize) ==
      Containers(m, per, k, hlen, chunkSize) + Held(Get(m1, per, i), hlen, chunkSize)
  {
    hide Held, Get;
    if i == k - 1 {
      ContainersSame(m, m1, per, k - 1, hlen, chunkSize);
    } else {
      ContainersUpdate(m, m1, per, k - 1, i, hlen, chunkSize);
      var h := Held(Get(m, per, k - 1), hlen, chunkSize);
      assert Get(m1, per, k - 1) == Get(m, per, k - 1);
      Regroup(Containers(m1, per, k - 1, hlen, chunkSize), Held(Get(m, per, i), hlen, chunkSize),
              Containers(m, per, k - 1, hlen, chunkSize), Held(Get(m1, per, i), hlen, chunkSize), h);
    }
  }

  lemma Regroup(a: multiset<Al.Interval>, x: multiset<Al.Interval>, b: multiset<Al.Interval>, y: multiset<Al.Interval>,
                h: multiset<Al.Interval>)
    requires a + x == b + y
    ensures a + h + x == b + h + y
  {
    assert a + h + x == a + x + h && b + h + y == b + y + h;
  }

  lemma {:induction false} ContainersSame(m: Image, m1: Image, per: nat, k: nat, hlen: nat, chunkSize: nat)
    requires Sized(m, per, k) && Sized(m1, per, k) && hlen <= 64 && 0 < chunkSize
    requires forall j: nat :: j < k ==>
      Held(Get(m1, per, j), hlen, chunkSize) == Held(Get(m, per, j), hlen, chunkSize)
    ensures Containers(m1, per, k, hlen, chunkSize) == Containers(m, per, k, hlen, chunkSize)
  {
    hide Held, Get;
    if k > 0 { ContainersSame(m, m1, per, k - 1, hlen, chunkSize); }
  }

  lemma {:induction false} ContainersHave(m: Image, per: nat, k: nat, i: nat, hlen: nat, chunkSize: nat)
    requires Sized(m, per, k) && hlen <= 64 && 0 < chunkSize && i < k
    ensures Held(Get(m, per, i), hlen, chunkSize) <= Containers(m, per, k, hlen, chunkSize)
  {
    hide Held;
    if i < k - 1 { ContainersHave(m, per, k - 1, i, hlen, chunkSize); }
  }

  lemma {:induction false} ContainersHaveTwo(m: Image, per: nat, k: nat, i: nat, j: nat, hlen: nat, chunkSize: nat)
    requires Sized(m, per, k) && hlen <= 64 && 0 < chunkSize && i < j < k
    ensures Held(Get(m, per, i), hlen, chunkSize) + Held(Get(m, per, j), hlen, chunkSize)
      <= Containers(m, per, k, hlen, chunkSize)
  {
    hide Held;
    if j == k - 1 {
      ContainersHave(m, per, k - 1, i, hlen, chunkSize);
    } else {
      ContainersHaveTwo(m, per, k - 1, i, j, hlen, chunkSize);
    }
  }

  // ---------------------------------------------------------------- the allocator's list

  /** The list has exactly the reserved areas and the containers of the files; every container
      lies behind the label. */
  ghost predicate Booked(v: Volume, reserved: multiset<Al.Interval>)
    requires Sound(v)
  {
    && multiset(v.al) == reserved + Files(v) && Al.Ok(v.al, v.size)
    && forall i: nat :: i < |v.table.slots| && IsFile(EntryOf(v, i), v.table.hlen) ==> 0 < EntryOf(v, i).chunk
  }

  /** The contents of a file that was entered into the table could not be copied. */
  ghost predicate Torn(v: Volume, action: Action)
    requires Sound(v)
  {
    && action.DoAddFile? && action.ready && !action.copied && Accepts(v, action.k)
    && 0 < Al.FirstFit(v.al, 0, v.size, DivRoundUp(action.fsize, v.chunkSize)) < v.size
  }

  lemma InsertFiles(v: Volume, k: Digest, chunk: nat, offset: nat, len: nat, link: bool)
    requires Good(v) && Accepts(v, k)
    ensures var r := Insert(v, k, chunk, offset, len, link);
      && r.Some? && Sound(r.value.0)
      && Files(r.value.0) == Files(v) +
           if link then multiset{} else multiset{Al.Interval(chunk, chunk + DivRoundUp(offset + len, v.chunkSize))}
  {
    hide Containers;
    hide Inv, Get, Insert, Accepts, CopyOf;
    InsertGood(v, k, chunk, offset, len, link);
    var (w, i) := Insert(v, k, chunk, offset, len, link).value;
    forall j: nat | j < |v.table.slots| && j != i ensures Get(w.cache, v.per, j) == Get(v.cache, v.per, j) {
      assert EntryOf(w, j) == EntryOf(v, j);
    }
    assert EntryOf(w, i) == Get(w.cache, v.per, i) && EntryOf(v, i) == Get(v.cache, v.per, i);
    ContainersUpdate(v.cache, w.cache, v.per, |v.table.slots|, i, v.table.hlen, v.chunkSize);
  }

  lemma RmFiles(v: Volume, k: Digest)
    requires Good(v) && RmFile(v, k).1
    ensures var e := EntryOf(v, Lookup(v.table, k[..v.table.hlen]).i);
      && IsFile(e, v.table.hlen) == !e.link
      && Sound(RmFile(v, k).0) && Files(RmFile(v, k).0) + Held(e, v.table.hlen, v.chunkSize) == Files(v)
  {
    var i := Lookup(v.table, k[..v.table.hlen]).i;
    RmGood(v, k);
    RmFrame(v, k);
    var w := RmFile(v, k).0;
    hide Inv, Get, RmFile, ClearOf, Lookup;
    forall j: nat | j < |v.table.slots| && j != i ensures Get(w.cache, v.per, j) == Get(v.cache, v.per, j) {
      assert EntryOf(w, j) == EntryOf(v, j);
    }
    assert EntryOf(w, i) == Get(w.cache, v.per, i) && EntryOf(v, i) == Get(v.cache, v.per, i);
    ContainersUpdate(v.cache, w.cache, v.per, |v.table.slots|, i, v.table.hlen, v.chunkSize);
  }

  lemma RmFrame(v: Volume, k: Digest)
    requires Sound(v) && RmFile(v, k).1
    ensures var w, r := RmFile(v, k).0, Lookup(v.table, k[..v.table.hlen]);
      && Sound(w) && w.per == v.per && w.chunkSize == v.chunkSize && w.size == v.size
      && |w.table.slots| == |v.table.slots| && w.table.hlen == v.table.hlen && r.Slot?
      && var e := EntryOf(v, r.i);
         (!e.link ==> Block(e, v.chunkSize) in v.al)
         && w.al == if e.link then v.al else Al.Unregister(v.al, e.chunk, Size(e, v.chunkSize))
  {}

  /** The list and the files only change their marks. */
  lemma MarksOnly(v: Volume, w: Volume, reserved: multiset<Al.Interval>)
    requires Good(v) && Good(w) && w.(cache := v.cache, modified := v.modified, def := v.def) == v
    requires forall j: nat :: j < |v.table.slots| ==> EntryOf(w, j).(dflt := EntryOf(v, j).dflt) == EntryOf(v, j)
    requires Booked(v, reserved)
    ensures Booked(w, reserved)
  {
    hide Get, Al.Ok, Inv;
    forall j: nat | j < |v.table.slots|
      ensures Held(Get(w.cache, v.per, j), v.table.hlen, v.chunkSize) ==
        Held(Get(v.cache, v.per, j), v.table.hlen, v.chunkSize)
      ensures IsFile(EntryOf(w, j), v.table.hlen) ==> 0 < EntryOf(w, j).chunk
    {
      assert EntryOf(w, j).(dflt := EntryOf(v, j).dflt) == EntryOf(v, j);
    }
    ContainersSame(v.cache, w.cache, v.per, |v.table.slots|, v.table.hlen, v.chunkSize);
  }

  /** What `actn_addfile` does to the table and to the list. */
  lemma AddFileFrame(v: Volume, k: Digest, fsize: nat, ready: bool, copied: bool)
    requires Good(v)
    ensures var csize := DivRoundUp(fsize, v.chunkSize);
      var c := Al.FirstFit(v.al, 0, v.size, csize);
      var w := AddFile(v, k, fsize, ready, copied).0;
      var a := Al.Register(v.al, c, csize);
      && w.size == v.size
      && (if c == 0 || v.size <= c then w == v
          else if !ready || !Accepts(v, k) then w == v.(al := Al.Unregister(a, c, csize))
          else
            var r := Insert(v, k, c, 0, fsize, false);
            r.Some? && w == r.value.0.(al := if copied then a else Al.Unregister(a, c, csize)))
  {
    InsertAl(v, k, Al.FirstFit(v.al, 0, v.size, DivRoundUp(fsize, v.chunkSize)), fsize);
    InsertGood(v, k, Al.FirstFit(v.al, 0, v.size, DivRoundUp(fsize, v.chunkSize)), 0, fsize, false);
  }

  /** The allocator's list does not matter for an insertion. */
  lemma InsertAl(v: Volume, k: Digest, chunk: nat, len: nat)
    requires Sound(v)
    ensures var r := Insert(v, k, chunk, 0, len, false);
      forall al :: Insert(v.(al := al), k, chunk, 0, len, false) == WithList(r, al)
  {}

  function WithList(r: Option<(Volume, nat)>, al: seq<Al.Interval>): Option<(Volume, nat)> {
    if r.Some? then Some((r.value.0.(al := al), r.value.1)) else None
  }

  /** What becomes of the list when a container is reserved and given back. */
  lemma Reserve(al: seq<Al.Interval>, size: nat, csize: nat)
    requires Al.Ok(al, size) && 0 < Al.FirstFit(al, 0, size, csize) < size
    ensures var c := Al.FirstFit(al, 0, size, csize);
      var a := Al.Register(al, c, csize);
      && Al.Ok(a, size) && multiset(a) == multiset(al) + multiset{Al.Interval(c, c + csize)}
      && Al.Ok(Al.Unregister(a, c, csize), size) && multiset(Al.Unregister(a, c, csize)) == multiset(al)
  {
    hide Al.Ok, Al.FirstFit, Al.Register, Al.Unregister;
    var c := Al.FirstFit(al, 0, size, csize);
    FirstEntry(al, size);
    Al.FirstFitExact(al, size, csize);
    Al.RegisterOk(al, size, c, csize);
    Al.RegisterUndone(al, c, csize);
    Al.RegisterMultiset(al, c, csize);
    Al.UnregisterOk(Al.Register(al, c, csize), size, c, csize);
  }

  lemma FirstEntry(al: seq<Al.Interval>, size: nat)
    requires Al.Ok(al, size)
    ensures al != [] && al[0].start == 0
  {}

  /** With a new file in the table, the list must have its container. */
  lemma InsertedBooked(v: Volume, k: Digest, c: nat, fsize: nat, al: seq<Al.Interval>, reserved: multiset<Al.Interval>)
    requires Good(v) && Booked(v, reserved) && Accepts(v, k) && 0 < c && Al.Ok(al, v.size)
    ensures var r := Insert(v, k, c, 0, fsize, false);
      && r.Some?
      && var w := r.value.0.(al := al);
         Sound(w) && (Booked(w, reserved) <==>
           multiset(al) == reserved + (Files(v) + multiset{Al.Interval(c, c + DivRoundUp(fsize, v.chunkSize))}))
  {
    hide Inv, Get, Al.Ok, Insert, Containers, CopyOf;
    InsertGood(v, k, c, 0, fsize, false);
    InsertFiles(v, k, c, 0, fsize, false);
    var (w, i) := Insert(v, k, c, 0, fsize, false).value;
    forall j: nat | j < |v.table.slots| && IsFile(EntryOf(w, j), v.table.hlen) ensures 0 < EntryOf(w, j).chunk {
      assert j != i ==> EntryOf(w, j) == EntryOf(v, j);
    }
    assert forall j: nat | j < |v.table.slots| :: EntryOf(w.(al := al), j) == EntryOf(w, j);
  }

  /** After a new file was entered the list is in order exactly if its container stayed
      registered. */
  lemma AddFileBooked(v: Volume, k: Digest, fsize: nat, ready: bool, copied: bool, reserved: multiset<Al.Interval>)
    requires Good(v) && Booked(v, reserved)
    ensures var w := AddFile(v, k, fsize, ready, copied).0;
      Sound(w) && (Booked(w, reserved) <==> !Torn(v, DoAddFile(k, fsize, ready, copied)))
  {
    hide Inv, Get, Al.Ok, AddFile, Insert, Al.FirstFit, Al.Register, Al.Unregister, Containers, Accepts;
    AddFileFrame(v, k, fsize, ready, copied);
    var csize := DivRoundUp(fsize, v.chunkSize);
    var c := Al.FirstFit(v.al, 0, v.size, csize);
    if 0 < c < v.size {
      Reserve(v.al, v.size, csize);
      var a := Al.Register(v.al, c, csize);
      if ready && Accepts(v, k) {
        InsertedBooked(v, k, c, fsize, if copied then a else Al.Unregister(a, c, csize), reserved);
        More(reserved, Files(v), Al.Interval(c, c + csize));
      } else {
        SameBooked(v, Al.Unregister(a, c, csize), reserved);
      }
    }
  }

  lemma More(a: multiset<Al.Interval>, b: multiset<Al.Interval>, x: Al.Interval)
    ensures a + b + multiset{x} == a + (b + multiset{x})
    ensures a + b != a + (b + multiset{x})
  {
    assert (a + b)[x] != (a + (b + multiset{x}))[x];
  }

  lemma SameBooked(v: Volume, al: seq<Al.Interval>, reserved: multiset<Al.Interval>)
    requires Sound(v) && Booked(v, reserved) && Al.Ok(al, v.size) && multiset(al) == multiset(v.al)
    ensures Booked(v.(al := al), reserved)
  {
    hide Get, Al.Ok, Containers;
    assert forall j: nat | j < |v.table.slots| :: EntryOf(v.(al := al), j) == EntryOf(v, j);
  }

  lemma RmPlaced(v: Volume, k: Digest)
    requires Good(v) && RmFile(v, k).1
    requires forall j: nat :: j < |v.table.slots| && IsFile(EntryOf(v, j), v.table.hlen) ==> 0 < EntryOf(v, j).chunk
    ensures var w := RmFile(v, k).0;
      Sound(w) && forall j: nat :: j < |w.table.slots| && IsFile(EntryOf(w, j), w.table.hlen) ==>
        0 < EntryOf(w, j).chunk
  {
    RmFrame(v, k);
    RmGood(v, k);
    hide Inv, Get, RmFile, Lookup, ClearOf, Agree, Clean, Marked;
    var i, w := Lookup(v.table, k[..v.table.hlen]).i, RmFile(v, k).0;
    forall j: nat | j < |v.table.slots| && IsFile(EntryOf(w, j), v.table.hlen) ensures 0 < EntryOf(w, j).chunk {
      assert j != i ==> EntryOf(w, j) == EntryOf(v, j);
      ClearedFree(EntryOf(v, i).hash, v.table.hlen);
    }
  }

  lemma ClearedFree(h: Digest, hlen: nat)
    requires hlen <= 64
    ensures ClearOf(h, hlen)[..hlen] == Nul(hlen)
  {}

  /** A removal releases the container of the file; it never fails to. */
  lemma RmBooked(v: Volume, k: Digest, reserved: multiset<Al.Interval>)
    requires Good(v) && Booked(v, reserved)
    ensures var w := RmFile(v, k).0; Sound(w) && Booked(w, reserved)
    ensures RmFile(v, k).1 <==> Holds(v.table, k[..v.table.hlen])
  {
    hide Inv, Get, Al.Ok, Containers, ClearOf, Al.Unregister, Agree, Clean, Marked, Write;
    var r := Lookup(v.table, k[..v.table.hlen]);
    LookupExact(v.table, k[..v.table.hlen], 0);
    if r.Slot? {
      if !EntryOf(v, r.i).link { RmReleases(v, r.i, reserved); }
      RmFrame(v, k);
      RmPlaced(v, k);
      RmFiles(v, k);
    }
  }

  /** The container of a file is on the list, and taking it out leaves the others. */
  lemma RmReleases(v: Volume, i: nat, reserved: multiset<Al.Interval>)
    requires Good(v) && Booked(v, reserved) && InUse(v.table, i) && !EntryOf(v, i).link
    ensures var e := EntryOf(v, i);
      var al := Al.Unregister(v.al, e.chunk, Size(e, v.chunkSize));
      && Block(e, v.chunkSize) in v.al && IsFile(e, v.table.hlen) && Al.Ok(al, v.size)
      && multiset(al) == multiset(v.al) - multiset{Block(e, v.chunkSize)}
  {
    hide Inv, Get, Al.Ok, Containers, Al.Unregister;
    var e := EntryOf(v, i);
    ContainersHave(v.cache, v.per, |v.table.slots|, i, v.table.hlen, v.chunkSize);
    assert Block(e, v.chunkSize) in multiset(v.al);
    Al.UnregisterOk(v.al, v.size, e.chunk, Size(e, v.chunkSize));
    Al.UnregisterMultiset(v.al, e.chunk, Size(e, v.chunkSize));
  }

  /** The list stays in order in every action, except exactly when the contents of a new file
      could not be copied: its entry stays in the table, but its container is given back. */
  lemma StepBooked(v: Volume, action: Action, reserved: multiset<Al.Interval>)
    requires Good(v) && Booked(v, reserved)
    ensures Sound(After(v, action)) && (Booked(After(v, action), reserved) <==> !Torn(v, action))
  {
    hide Inv, Get, Al.Ok, Containers, Insert, Lookup, Write, AddFile, RmFile, Booked, Accepts;
    match action
    case DoAddFile(k, fsize, ready, copied) => AddFileBooked(v, k, fsize, ready, copied, reserved);
    case DoAddLink(k, chunk, offset, len) => LinkBooked(v, k, chunk, offset, len, reserved);
    case DoRmFile(k) => RmBooked(v, k, reserved);
    case DoSetDefault(k) =>
      SetDefaultGood(v, k);
      ClearDefaultFrame(v);
      SetDefaultFrame(v, k);
      MarksOnly(v, SetDefault(v, k).0, reserved);
    case DoClearDefault =>
      ClearDefaultGood(v);
      ClearDefaultFrame(v);
      MarksOnly(v, ClearDefault(v), reserved);
  }

  lemma SetDefaultFrame(v: Volume, k: Digest)
    requires Good(v)
    ensures var w := SetDefault(v, k).0;
      Sound(w) && w.(cache := v.cache, modified := v.modified, def := v.def) == v && (!SetDefault(v, k).1 ==> w == v)
  {
    ClearDefaultFrame(v);
  }

  lemma LinkBooked(v: Volume, k: Digest, chunk: nat, offset: nat, len: nat, reserved: multiset<Al.Interval>)
    requires Good(v) && Booked(v, reserved)
    ensures var w := AddLink(v, k, chunk, offset, len).0; Sound(w) && Booked(w, reserved)
  {
    hide Inv, Get, Al.Ok, Insert, Containers, CopyOf, Accepts;
    InsertGood(v, k, chunk, offset, len, true);
    if Accepts(v, k) {
      InsertFiles(v, k, chunk, offset, len, true);
      var (w, i) := Insert(v, k, chunk, offset, len, true).value;
      forall j: nat | j < |v.table.slots| && IsFile(EntryOf(w, j), v.table.hlen) ensures 0 < EntryOf(w, j).chunk {
        assert j != i ==> EntryOf(w, j) == EntryOf(v, j);
      }
    }
  }

  /** No action of a run tears a file. */
  ghost predicate Whole(v: Volume, actions: seq<Action>)
    requires Sound(v)
    decreases |actions|
  {
    actions != [] ==>
      !Torn(v, actions[0]) && Sound(After(v, actions[0])) && Whole(After(v, actions[0]), actions[1..])
  }

  lemma {:induction false} RunBooked(v: Volume, actions: seq<Action>, reserved: multiset<Al.Interval>)
    requires Good(v) && Booked(v, reserved) && Whole(v, actions)
    ensures Booked(AfterAll(v, actions), reserved)
    decreases |actions|
  {
    hide After, Booked, Torn;
    if actions != [] {
      StepGood(v, actions[0]);
      StepBooked(v, actions[0], reserved);
      RunBooked(After(v, actions[0]), actions[1..], reserved);
    }
  }

  // ---------------------------------------------------------------- no two files overlap

  lemma TwoPlaces(al: seq<Al.Interval>, a: Al.Interval, b: Al.Interval) returns (p: nat, q: nat)
    requires multiset{a} + multiset{b} <= multiset(al)
    ensures p < |al| && q < |al| && p != q && al[p] == a && al[q] == b
  {
    assert a in multiset(al);
    p :| p < |al| && al[p] == a;
    var rest := al[..p] + al[p + 1..];
    assert al == al[..p] + [a] + al[p + 1..];
    assert multiset(al) == multiset(rest) + multiset{a};
    assert multiset{a}[b] + multiset{b}[b] <= multiset(al)[b];
    assert b in multiset(rest);
    var r :| 0 <= r < |rest| && rest[r] == b;
    q := if r < p then r else r + 1;
  }

  /** Entries of a list in order do not overlap, whichever two they are. */
  lemma Apart(al: seq<Al.Interval>, size: nat, a: Al.Interval, b: Al.Interval)
    requires Al.Ok(al, size) && multiset{a} + multiset{b} <= multiset(al)
    ensures !Al.Overlap(a, b) && a.end <= size
  {
    var p, q := TwoPlaces(al, a, b);
    assert if p < q then !Al.Overlap(al[p], al[q]) else !Al.Overlap(al[q], al[p]);
  }

  /** The chunk that holds byte `j` of a file. */
  function ChunkAt(e: HEntry, chunkSize: nat, j: nat): nat
    requires 0 < chunkSize
  {
    e.chunk + (e.offset + j) / chunkSize
  }

  /** The container of a file has room for it: every byte lies in one of its chunks. */
  lemma BytesInside(e: HEntry, chunkSize: nat, j: nat)
    requires 0 < chunkSize && j < e.len
    ensures var b := Block(e, chunkSize); b.start <= ChunkAt(e, chunkSize, j) < b.end
  {
    var x := e.offset + j;
    assert x == x / chunkSize * chunkSize + x % chunkSize;
    if Size(e, chunkSize) <= x / chunkSize { Arith.MulMono(Size(e, chunkSize), x / chunkSize, chunkSize); }
  }

  /** No chunk holds bytes of both files. */
  ghost predicate BytesApart(e: HEntry, f: HEntry, chunkSize: nat)
    requires 0 < chunkSize
  {
    forall j: nat, k: nat :: j < e.len && k < f.len ==> ChunkAt(e, chunkSize, j) != ChunkAt(f, chunkSize, k)
  }

  /** Every byte of the file lies on the volume and outside the area `r`. */
  ghost predicate BytesOutside(e: HEntry, r: Al.Interval, size: nat, chunkSize: nat)
    requires 0 < chunkSize
  {
    forall j: nat :: j < e.len ==>
      var c := ChunkAt(e, chunkSize, j); c < size && !(r.start <= c < r.end)
  }

  /** Nothing of the two files is in the same place, nor in the area `r`, nor outside the volume. */
  ghost predicate Separate(e: HEntry, f: HEntry, r: Al.Interval, size: nat, chunkSize: nat)
    requires 0 < chunkSize
  {
    && BytesApart(e, f, chunkSize) && BytesOutside(e, r, size, chunkSize)
    && var a, b := Block(e, chunkSize), Block(f, chunkSize);
      !Al.Overlap(a, b) && !Al.Overlap(a, r) && a.end <= size
  }

  lemma BlocksSeparate(e: HEntry, f: HEntry, r: Al.Interval, size: nat, chunkSize: nat)
    requires 0 < chunkSize
    requires var a, b := Block(e, chunkSize), Block(f, chunkSize);
      !Al.Overlap(a, b) && !Al.Overlap(a, r) && a.end <= size
    ensures Separate(e, f, r, size, chunkSize)
  {
    hide Block, ChunkAt;
    forall j: nat | j < e.len
      ensures var c := ChunkAt(e, chunkSize, j); c < size && !(r.start <= c < r.end)
      ensures forall k: nat :: k < f.len ==> ChunkAt(e, chunkSize, j) != ChunkAt(f, chunkSize, k)
    {
      BytesInside(e, chunkSize, j);
      forall k: nat | k < f.len ensures ChunkAt(e, chunkSize, j) != ChunkAt(f, chunkSize, k) {
        BytesInside(f, chunkSize, k);
      }
    }
  }

  /** The files in the table lie inside the volume, and no chunk that holds a byte of one holds a
      byte of another or lies in a reserved area. */
  lemma FilesApart(v: Volume, reserved: multiset<Al.Interval>, i: nat, j: nat, r: Al.Interval)
    requires Good(v) && Booked(v, reserved) && i < |v.table.slots| && j < |v.table.slots| && i != j
    requires IsFile(EntryOf(v, i), v.table.hlen) && IsFile(EntryOf(v, j), v.table.hlen) && r in reserved
    ensures Separate(EntryOf(v, i), EntryOf(v, j), r, v.size, v.chunkSize)
  {
    hide Inv, Get, Al.Ok, Separate, Block;
    var a, b := Block(EntryOf(v, i), v.chunkSize), Block(EntryOf(v, j), v.chunkSize);
    ContainersHaveTwo(v.cache, v.per, |v.table.slots|, if i < j then i else j, if i < j then j else i,
                      v.table.hlen, v.chunkSize);
    ContainersHave(v.cache, v.per, |v.table.slots|, i, v.table.hlen, v.chunkSize);
    assert multiset{a} + multiset{b} <= multiset(v.al);
    assert multiset{a} + multiset{r} <= multiset(v.al);
    Apart(v.al, v.size, a, b);
    Apart(v.al, v.size, a, r);
    BlocksSeparate(EntryOf(v, i), EntryOf(v, j), r, v.size, v.chunkSize);
  }

  lemma RunFilesApart(v: Volume, actions: seq<Action>, reserved: multiset<Al.Interval>, i: nat, j: nat, r: Al.Interval)
    requires Good(v) && Booked(v, reserved) && Whole(v, actions) && i < j < |AfterAll(v, actions).table.slots|
    requires var w := AfterAll(v, actions); IsFile(EntryOf(w, i), w.table.hlen) && IsFile(EntryOf(w, j), w.table.hlen)
    requires r in reserved
    ensures var w := AfterAll(v, actions);
      Separate(EntryOf(w, i), EntryOf(w, j), r, w.size, w.chunkSize)
  {
    hide Separate;
    RunGood(v, actions);
    RunBooked(v, actions, reserved);
    FilesApart(AfterAll(v, actions), reserved, i, j, r);
  }

  // ---------------------------------------------------------------- mounting

  /** The areas of all entries in use among the first `k`, links included, as they are
      registered at mount time. */
  ghost function Areas(m: Image, per: nat, k: nat, hlen: nat, chunkSize: nat): multiset<Al.Interval>
    requires Sized(m, per, k) && hlen <= 64 && 0 < chunkSize
  {
    if k == 0 then multiset{}
    else
      var e := Get(m, per, k - 1);
      Areas(m, per, k - 1, hlen, chunkSize) +
        if e.hash[..hlen] == Nul(hlen) then multiset{} else multiset{Block(e, chunkSize)}
  }

  ghost function Links(m: Image, per: nat, k: nat, hlen: nat): nat
    requires Sized(m, per, k) && hlen <= 64
  {
    if k == 0 then 0
    else
      var e := Get(m, per, k - 1);
      Links(m, per, k - 1, hlen) + if e.hash[..hlen] != Nul(hlen) && e.link then 1 else 0
  }

  lemma {:induction false} AreasAreFiles(m: Image, per: nat, k: nat, hlen: nat, chunkSize: nat)
    requires Sized(m, per, k) && hlen <= 64 && 0 < chunkSize
    ensures |Areas(m, per, k, hlen, chunkSize)| == |Containers(m, per, k, hlen, chunkSize)| + Links(m, per, k, hlen)
    ensures Links(m, per, k, hlen) == 0 ==> Areas(m, per, k, hlen, chunkSize) == Containers(m, per, k, hlen, chunkSize)
  {
    hide Get, Block;
    if k > 0 { AreasAreFiles(m, per, k - 1, hlen, chunkSize); }
  }

  lemma {:induction false} LinksExact(m: Image, per: nat, k: nat, hlen: nat)
    requires Sized(m, per, k) && hlen <= 64
    ensures Links(m, per, k, hlen) == 0 <==>
      forall i: nat :: i < k ==> Get(m, per, i).hash[..hlen] == Nul(hlen) || !Get(m, per, i).link
  {
    hide Get;
    if k > 0 {
      LinksExact(m, per, k - 1, hlen);
      var e := Get(m, per, k - 1);
    }
  }

  lemma {:induction false} RegisteredAll(al: seq<Al.Interval>, m: Image, per: nat, s: seq<Key>, k: nat, hlen: nat,
                                         chunkSize: nat)
    requires Sized(m, per, |s|) && Sized(m, per, k) && hlen <= 64 && 0 < chunkSize && k <= |s|
    requires forall i: nat :: i < |s| ==> s[i] == Get(m, per, i).hash[..hlen]
    ensures multiset(Registered(al, m, per, Used(s, hlen, k), |s|, chunkSize)) ==
      multiset(al) + Areas(m, per, k, hlen, chunkSize)
  {
    hide Get, Block, Nul, Registered, Areas;
    AreasNext(m, per, k, hlen, chunkSize);
    if k == 0 {
      RegisteredNone(al, m, per, |s|, chunkSize);
    } else {
      RegisteredAll(al, m, per, s, k - 1, hlen, chunkSize);
      RegisteredNext(al, m, per, Used(s, hlen, k - 1), k - 1, |s|, chunkSize);
      Assoc(multiset(al), Areas(m, per, k - 1, hlen, chunkSize), multiset{Block(Get(m, per, k - 1), chunkSize)});
    }
  }

  lemma AreasNext(m: Image, per: nat, k: nat, hlen: nat, chunkSize: nat)
    requires Sized(m, per, k) && hlen <= 64 && 0 < chunkSize
    ensures Areas(m, per, k, hlen, chunkSize) ==
      if k == 0 then multiset{}
      else if Get(m, per, k - 1).hash[..hlen] == Nul(hlen) then Areas(m, per, k - 1, hlen, chunkSize)
      else Areas(m, per, k - 1, hlen, chunkSize) + multiset{Block(Get(m, per, k - 1), chunkSize)}
  {}

  lemma RegisteredNone(al: seq<Al.Interval>, m: Image, per: nat, n: nat, chunkSize: nat)
    requires Sized(m, per, n) && 0 < chunkSize
    ensures Registered(al, m, per, [], n, chunkSize) == al
  {}

  lemma Assoc(a: multiset<Al.Interval>, b: multiset<Al.Interval>, c: multiset<Al.Interval>)
    ensures a + b + c == a + (b + c)
  {}

  lemma RegisteredNext(al: seq<Al.Interval>, m: Image, per: nat, u: seq<nat>, x: nat, n: nat, chunkSize: nat)
    requires Sized(m, per, n) && 0 < chunkSize && x < n && forall j :: 0 <= j < |u| ==> u[j] < n
    ensures multiset(Registered(al, m, per, u + [x], n, chunkSize)) ==
      multiset(Registered(al, m, per, u, n, chunkSize)) + multiset{Block(Get(m, per, x), chunkSize)}
  {
    hide Get, Al.Register;
    assert (u + [x])[..|u|] == u;
    var e := Get(m, per, x);
    Al.RegisterMultiset(Registered(al, m, per, u, n, chunkSize), e.chunk, Size(e, chunkSize));
  }

  /** Mounting registers the reserved areas and the containers of the files, exactly if there
      is no link among the entries: the attributes of a link are taken for a container. */
  lemma LoadedList(v: Volume, reserved: seq<Al.Interval>)
    requires Good(v)
    ensures Restored(v, reserved)
    ensures var w := Load(WriteBack(v), reserved);
      multiset(w.al) == multiset(reserved) + Files(w) <==>
      forall i: nat :: i < |w.table.slots| && InUse(w.table, i) ==> !EntryOf(w, i).link
  {
    hide Get, Containers, Areas, Links, Registered, Inv, Al.Ok;
    RoundTrip(v, reserved);
    WrittenBack(v);
    var w := Load(WriteBack(v), reserved);
    var n, hlen := |w.table.slots|, w.table.hlen;
    RegisteredAll(reserved, w.cache, w.per, w.table.slots, n, hlen, w.chunkSize);
    AreasAreFiles(w.cache, w.per, n, hlen, w.chunkSize);
    LinksExact(w.cache, w.per, n, hlen);
    assert |multiset(w.al)| == |multiset(reserved)| + |Areas(w.cache, w.per, n, hlen, w.chunkSize)|;
  }
}
