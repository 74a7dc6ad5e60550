/** What every step of the chunk cache keeps. */
module CacheInv {
  import opened Types
  import opened Seqs
  import opened CacheSpec

  ghost predicate Unlinked(s: State, i: nat) {
    forall b :: 0 <= b < |s.clist| ==> i !in s.clist[b]
  }

  /** Entry `i` is in the collision list of its chunk and in no other. */
  ghost predicate Linked(v: Vol, s: State, i: nat)
    requires Ranged(v, s) && i < |s.entries|
  {
    forall b :: 0 <= b < |s.clist| ==> (i in s.clist[b] <==> b == HtIndex(v.htlen, s.entries[i].addr))
  }

  /** The data in entry `e` is the data on the disk, unless it is invalid. */
  ghost predicate Coherent(v: Vol, e: Entry) {
    !e.invalid ==> e.buffer == v.disk(e.addr)
  }

  /** A buffer is free, or private to the caller that asked for a blank one, or it holds a
      chunk: then the chunk's collision list has it, the list of available entries has it
      iff nobody references it, and as many callers wait as there are references while its
      request is in flight. The caller that has just referenced entry `h` has no token yet. */
  ghost predicate EntryOk(v: Vol, s: State, i: nat, h: nat)
    requires Ranged(v, s) && i < |s.entries|
  {
    var e := s.entries[i];
    var d := if i == h then 1 else 0;
    if i in s.free then
      i !in s.alist && Unlinked(s, i) && d == e.refcount == 0 && e.t.None? && e.chain == []
    else if e.addr == 0 then
      i !in s.alist && Unlinked(s, i) && d == 0 && e.refcount == 1 && e.t.None? && e.chain == [] && e.invalid
    else
      && Linked(v, s, i)
      && e.addr <= v.volsize
      && d <= e.refcount
      && (i in s.alist <==> e.refcount == 0)
      && match e.t
         case Some(io) => io.target == e.addr && |e.chain| + d == e.refcount
         case None => e.chain == [] && Coherent(v, e) && (e.refcount == 0 ==> !e.invalid)
  }

  /** No chunk has two entries. */
  ghost predicate Unique(s: State, x: nat) {
    forall i, j | 0 <= i < j < |s.entries| && i != x && j != x && i !in s.free && j !in s.free ::
      s.entries[i].addr == 0 || s.entries[i].addr != s.entries[j].addr
  }

  /** The number of referenced entries. */
  ghost function Refs(es: seq<Entry>): nat {
    if es == [] then 0
    else Refs(es[..|es| - 1]) + (if 0 < es[|es| - 1].refcount then 1 else 0)
  }

  ghost predicate Lists(s: State) {
    && NoDup(s.free) && NoDup(s.alist)
    && (forall b :: 0 <= b < |s.clist| ==> NoDup(s.clist[b]))
  }

  ghost predicate Counts(s: State) {
    && s.nbEntries == |s.entries| - |s.free|
    && s.nbRef == Refs(s.entries)
  }

  /** The structure of the cache, but for buffer `x`, while the caller that has referenced
      entry `h` has no token yet. */
  ghost predicate InvBut(v: Vol, s: State, x: nat, h: nat) {
    && Ranged(v, s)
    && Lists(s)
    && Counts(s)
    && Unique(s, x)
    && (forall i :: 0 <= i < |s.entries| && i != x ==> EntryOk(v, s, i, h))
  }

  /** The structure of the cache while the caller that has referenced entry `h` has no
      token yet. */
  ghost predicate Held(v: Vol, s: State, h: nat) {
    InvBut(v, s, |s.entries|, h)
  }

  /** The structure of the cache between two operations. */
  ghost predicate Inv(v: Vol, s: State) {
    Held(v, s, |s.entries|)
  }

  /** Buffer `x` is in use but in no list. */
  ghost predicate Detached(s: State, x: nat) {
    && x < |s.entries|
    && x !in s.free && x !in s.alist && Unlinked(s, x)
    && var e := s.entries[x];
       e.refcount == 0 && e.t.None? && e.chain == []
  }

  lemma {:induction false} RefsUpdate(es: seq<Entry>, i: nat, e: Entry)
    requires i < |es|
    ensures Refs(es[i := e]) ==
      Refs(es) - (if 0 < es[i].refcount then 1 else 0) + (if 0 < e.refcount then 1 else 0)
  {
    var n := |es| - 1;
    if i < n {
      RefsUpdate(es[..n], i, e);
      assert es[i := e][..n] == es[..n][i := e];
    } else {
      assert es[i := e][..n] == es[..n];
    }
  }

  /** Buffer `i` is the same, and in the same lists, in both states. */
  ghost predicate Same(s: State, s1: State, i: nat) {
    && i < |s.entries| == |s1.entries| && |s.clist| == |s1.clist|
    && s.entries[i] == s1.entries[i]
    && (i in s.free <==> i in s1.free)
    && (i in s.alist <==> i in s1.alist)
    && (forall b :: 0 <= b < |s.clist| ==> (i in s.clist[b] <==> i in s1.clist[b]))
  }

  lemma Frame(v: Vol, s: State, s1: State, x: nat, y: nat, h: nat)
    requires Ranged(v, s) && Ranged(v, s1)
    requires |s.entries| == |s1.entries|
    requires forall i :: 0 <= i < |s.entries| && i != x ==> EntryOk(v, s, i, h)
    requires forall i :: 0 <= i < |s.entries| && i != x && i != y ==> Same(s, s1, i)
    ensures forall i :: 0 <= i < |s.entries| && i != x && i != y ==>
      EntryOk(v, s1, i, h)
  {
    forall i | 0 <= i < |s.entries| && i != x && i != y
      ensures EntryOk(v, s1, i, h)
    {
      assert EntryOk(v, s, i, h) && Same(s, s1, i);
      if i !in s.free && s.entries[i].addr != 0 {
        assert Linked(v, s, i);
        assert Linked(v, s1, i);
      } else {
        assert Unlinked(s, i);
        assert Unlinked(s1, i);
      }
    }
  }

  /** Only entry `i` changes, and it may begin or cease to be the one held. */
  lemma FrameHeld(v: Vol, s: State, s1: State, i: nat, h: nat, h1: nat)
    requires Ranged(v, s) && Ranged(v, s1) && i < |s.entries| == |s1.entries|
    requires h == i || |s.entries| <= h
    requires h1 == i || |s.entries| <= h1
    requires forall j :: 0 <= j < |s.entries| ==> EntryOk(v, s, j, h)
    requires forall j :: 0 <= j < |s.entries| && j != i ==> Same(s, s1, j)
    requires EntryOk(v, s1, i, h1)
    ensures forall j :: 0 <= j < |s.entries| ==> EntryOk(v, s1, j, h1)
  {
    Frame(v, s, s1, |s.entries|, i, h);
    forall j | 0 <= j < |s.entries|
      ensures EntryOk(v, s1, j, h1)
    {
      if j != i { assert EntryOk(v, s1, j, h); }
    }
  }

  /** Taking an idle entry out of both lists disturbs no other entry. */
  lemma DetachInv(v: Vol, s: State, i: nat, h: nat)
    requires Held(v, s, h) && i in s.alist && s.entries[i].t.None?
    ensures var s1 := s.(clist := ClistRemove(v, s, i), alist := Remove(s.alist, i));
      InvBut(v, s1, i, h) && Detached(s1, i) && i != h
  {
    var s1 := s.(clist := ClistRemove(v, s, i), alist := Remove(s.alist, i));
    var b := HtIndex(v.htlen, s.entries[i].addr);
    RemoveNoDup(s.alist, i);
    RemoveNoDup(s.clist[b], i);
    assert EntryOk(v, s, i, h);
    assert Linked(v, s, i);
    Frame(v, s, s1, |s.entries|, i, h);
  }

  lemma TakeInv(v: Vol, s: State, h: nat)
    requires Held(v, s, h)
    ensures var (s1, got) := Take(v, s);
      match got
      case None => s1 == s
      case Some(i) => InvBut(v, s1, i, h) && Detached(s1, i) && i != h
  {
    if s.free != [] {
      var i := s.free[0];
      assert i in s.free;
      assert EntryOk(v, s, i, h);
      var s1 := Take(v, s).0;
      RefsUpdate(s.entries, i, s1.entries[i]);
      assert s.free == [i] + s1.free;
      assert i !in s1.free;
      Frame(v, s, s1, |s.entries|, i, h);
    } else {
      var got := FirstIdle(s.entries, s.alist);
      if got.Some? { DetachInv(v, s, got.value, h); }
    }
  }

  lemma PutBackInv(v: Vol, s: State, x: nat, h: nat)
    requires InvBut(v, s, x, h) && Detached(s, x) && x != h
    ensures Held(v, PutBack(s, x), h)
  {
    Frame(v, s, PutBack(s, x), x, x, h);
  }

  lemma RefuseInv(v: Vol, s: State, x: nat, addr: nat, errno: nat, h: nat)
    requires InvBut(v, s, x, h) && Detached(s, x) && x != h && errno != 0
    ensures Held(v, Start(v, s, x, addr, errno).0, h)
  {
    var s1 := s.(entries := s.entries[x := s.entries[x].(addr := addr)]);
    RefsUpdate(s.entries, x, s1.entries[x]);
    Frame(v, s, s1, x, x, h);
    PutBackInv(v, s1, x, h);
  }

  /** A request may start only for a chunk that has no entry. */
  lemma StartInv(v: Vol, s: State, x: nat, addr: nat, h: nat)
    requires InvBut(v, s, x, h) && Detached(s, x) && x != h
    requires 0 < addr <= v.volsize
    requires forall j :: 0 <= j < |s.entries| && j != x && j !in s.free ==> s.entries[j].addr != addr
    ensures Held(v, Start(v, s, x, addr, 0).0, h)
  {
    hide HtIndex;
    var r := Start(v, s, x, addr, 0).0;
    RefsUpdate(s.entries, x, r.entries[x]);
    Frame(v, s, r, x, x, h);
    assert Linked(v, r, x);
  }

  /** The lookup finds the entry of a chunk iff there is one. */
  lemma FindExact(v: Vol, s: State, addr: nat, h: nat)
    requires Held(v, s, h) && 0 < addr
    ensures match Find(v, s, addr)
      case Some(i) => i < |s.entries| && i !in s.free && s.entries[i].addr == addr
      case None => forall j :: 0 <= j < |s.entries| && j !in s.free ==> s.entries[j].addr != addr
  {
    var found := Find(v, s, addr);
    forall j | 0 <= j < |s.entries|
      ensures found == Some(j) ==> j !in s.free
      ensures found.None? && j !in s.free ==> s.entries[j].addr != addr
    {
      assert EntryOk(v, s, j, h);
    }
  }

  /** No waiter came or went. */
  ghost predicate SameWaiters(s: State, s1: State) {
    && |s1.entries| == |s.entries| && s1.want == s.want && s1.log == s.log
    && forall i :: 0 <= i < |s.entries| ==>
         s1.entries[i].chain == s.entries[i].chain
         && (s.entries[i].chain == [] || s1.entries[i].addr == s.entries[i].addr)
  }

  /** No reference and no waiter came or went. */
  ghost predicate SameUsers(s: State, s1: State) {
    && SameWaiters(s, s1)
    && forall i :: 0 <= i < |s.entries| ==>
         s1.entries[i].refcount == s.entries[i].refcount
         && (s.entries[i].refcount == 0 || s1.entries[i].addr == s.entries[i].addr)
  }

  lemma TakeUsers(v: Vol, s: State, h: nat)
    requires Held(v, s, h)
    ensures SameUsers(s, Take(v, s).0)
  {
    if s.free != [] {
      assert s.free[0] in s.free;
      assert EntryOk(v, s, s.free[0], h);
    }
  }

  /** A chunk in the volume is found or requested, or the cache stays consistent without
      it; the entry of a caller between two steps is left alone. */
  lemma ObtainInv(v: Vol, s: State, addr: nat, dev: nat -> nat, h: nat)
    requires Held(v, s, h) && 0 < addr <= v.volsize
    ensures var (s1, got) := Obtain(v, s, addr, dev);
      && Held(v, s1, h)
      && (h < |s.entries| ==> s1.entries[h] == s.entries[h])
      && (got.Some? ==> got.value !in s1.free && s1.entries[got.value].addr == addr)
  {
    FindExact(v, s, addr, h);
    if Find(v, s, addr).None? {
      TakeInv(v, s, h);
      var (s1, got) := Take(v, s);
      if got.Some? {
        assert forall j :: 0 <= j < |s.entries| && j != got.value && j !in s1.free ==> j !in s.free;
        if dev(addr) == 0 {
          StartInv(v, s1, got.value, addr, h);
        } else {
          RefuseInv(v, s1, got.value, addr, dev(addr), h);
        }
      }
    }
  }

  lemma ObtainUsers(v: Vol, s: State, addr: nat, dev: nat -> nat, h: nat)
    requires Held(v, s, h)
    ensures SameUsers(s, Obtain(v, s, addr, dev).0)
  {
    hide Take;
    if Find(v, s, addr).None? {
      TakeInv(v, s, h);
      TakeUsers(v, s, h);
    }
  }

  lemma {:induction false} ReadAheadInv(v: Vol, s: State, addr: nat, i: nat, dev: nat -> nat, h: nat)
    requires Held(v, s, h) && h < |s.entries| && 0 < i
    ensures var s1 := ReadAhead(v, s, addr, i, dev);
      Held(v, s1, h) && s1.entries[h] == s.entries[h]
    decreases READAHEAD + 1 - i
  {
    hide Obtain;
    if i <= READAHEAD && addr + i < v.volsize {
      ObtainInv(v, s, addr + i, dev, h);
      var (s1, got) := Obtain(v, s, addr + i, dev);
      if got.Some? { ReadAheadInv(v, s1, addr, i + 1, dev, h); }
    }
  }

  lemma UsersTransitive(s: State, s1: State, s2: State)
    requires SameUsers(s, s1) && SameUsers(s1, s2)
    ensures SameUsers(s, s2)
  {
  }

  lemma {:induction false} ReadAheadUsers(v: Vol, s: State, addr: nat, i: nat, dev: nat -> nat, h: nat)
    requires Held(v, s, h) && h < |s.entries| && 0 < i
    ensures SameUsers(s, ReadAhead(v, s, addr, i, dev))
    decreases READAHEAD + 1 - i
  {
    hide Obtain;
    if i <= READAHEAD && addr + i < v.volsize {
      ObtainInv(v, s, addr + i, dev, h);
      ObtainUsers(v, s, addr + i, dev, h);
      var (s1, got) := Obtain(v, s, addr + i, dev);
      if got.Some? {
        ReadAheadUsers(v, s1, addr, i + 1, dev, h);
        UsersTransitive(s, s1, ReadAhead(v, s1, addr, i + 1, dev));
      }
    }
  }

  lemma RefInv(v: Vol, s: State, i: nat)
    requires Inv(v, s) && i < |s.entries| && i !in s.free && s.entries[i].addr != 0
    ensures Held(v, Ref(v, s, i), i) && SameWaiters(s, Ref(v, s, i))
  {
    hide HtIndex;
    var s1 := Ref(v, s, i);
    var none := |s.entries|;
    assert EntryOk(v, s, i, none);
    RefsUpdate(s.entries, i, s1.entries[i]);
    if s.entries[i].refcount == 0 { RemoveNoDup(s.alist, i); }
    assert Linked(v, s1, i);
    FrameHeld(v, s, s1, i, none, i);
  }

  /** The state after dropping a reference whose holder has no token. */
  function Unref(v: Vol, s: State, i: nat): (r: State)
    requires Ranged(v, s) && i < |s.entries|
    ensures Ranged(v, r) && |r.entries| == |s.entries|
  {
    if s.entries[i].refcount == 1 then Park(Deref(v, s, i), i) else Deref(v, s, i)
  }

  lemma UnrefEntry(v: Vol, s: State, i: nat)
    requires Held(v, s, i) && i < |s.entries| && s.entries[i].t.Some?
    ensures EntryOk(v, Unref(v, s, i), i, |s.entries|)
    ensures forall j :: 0 <= j < |s.entries| && j != i ==> Same(s, Unref(v, s, i), j)
  {
    assert EntryOk(v, s, i, i);
    assert Linked(v, Unref(v, s, i), i);
  }

  /** A reference whose holder has no token can be dropped while the request is in flight. */
  lemma UnrefInv(v: Vol, s: State, i: nat)
    requires Held(v, s, i) && i < |s.entries| && s.entries[i].t.Some?
    ensures Inv(v, Unref(v, s, i))
  {
    UnrefEntry(v, s, i);
    assert EntryOk(v, s, i, i);
    FrameHeld(v, s, Unref(v, s, i), i, i, |s.entries|);
    hide EntryOk, Same;
    RefsUpdate(s.entries, i, s.entries[i].(refcount := s.entries[i].refcount - 1));
  }

  /** A waiter joins the chain of an entry that is held. */
  lemma WaitInv(v: Vol, s: State, i: nat, addr: nat, k: nat)
    requires Held(v, s, i) && i < |s.entries| && s.entries[i].t.Some?
    ensures var e := s.entries[i].(chain := s.entries[i].chain + [k]);
      Inv(v, s.(want := s.want + [addr], entries := s.entries[i := e]))
  {
    var e := s.entries[i].(chain := s.entries[i].chain + [k]);
    var s1 := s.(want := s.want + [addr], entries := s.entries[i := e]);
    assert EntryOk(v, s, i, i);
    RefsUpdate(s.entries, i, e);
    assert Linked(v, s1, i);
    FrameHeld(v, s, s1, i, i, |s.entries|);
  }

  lemma SettledInv(v: Vol, s: State, i: nat)
    requires Held(v, s, i) && i < |s.entries| && s.entries[i].t.None?
    ensures Inv(v, s) && 0 < s.entries[i].refcount
  {
    assert EntryOk(v, s, i, i);
    FrameHeld(v, s, s, i, i, |s.entries|);
  }

  /** The holder of the new reference gets a token, or needs none. */
  lemma AnswerInv(v: Vol, s: State, i: nat, addr: nat, tokenOk: bool)
    requires Held(v, s, i) && i < |s.entries| && s.entries[i].addr == addr != 0
    ensures var (s1, r) := Answer(v, s, i, addr, tokenOk);
      && Inv(v, s1)
      && (r.Hit? ==> s1.entries[i].t.None? && 0 < s1.entries[i].refcount && SameWaiters(s, s1))
      && (r.Error? ==> SameWaiters(s, s1))
  {
    hide Held, Inv;
    if s.entries[i].t.None? {
      SettledInv(v, s, i);
    } else if tokenOk {
      WaitInv(v, s, i, addr, |s.want|);
    } else {
      UnrefInv(v, s, i);
    }
  }

  lemma BlankInv(v: Vol, s: State, x: nat)
    requires InvBut(v, s, x, |s.entries|) && Detached(s, x)
    ensures var e := s.entries[x].(refcount := 1, t := None, addr := 0, invalid := true);
      Inv(v, s.(entries := s.entries[x := e], nbRef := s.nbRef + 1))
  {
    var e := s.entries[x].(refcount := 1, t := None, addr := 0, invalid := true);
    var s1 := s.(entries := s.entries[x := e], nbRef := s.nbRef + 1);
    RefsUpdate(s.entries, x, e);
    Frame(v, s, s1, x, x, |s.entries|);
  }

  lemma EblankInv(v: Vol, s: State)
    requires Inv(v, s)
    ensures Inv(v, Eblank(v, s).0) && SameWaiters(s, Eblank(v, s).0)
  {
    TakeInv(v, s, |s.entries|);
    TakeUsers(v, s, |s.entries|);
    var (s1, got) := Take(v, s);
    if got.Some? { BlankInv(v, s1, got.value); }
  }

  /** Filling a blank buffer is nobody else's business. */
  lemma FillInv(v: Vol, s: State, i: nat, data: Chunk)
    requires Inv(v, s) && i < |s.entries| && i !in s.free && s.entries[i].addr == 0
    ensures Inv(v, Fill(s, i, data)) && SameWaiters(s, Fill(s, i, data))
  {
    var s1 := Fill(s, i, data);
    assert EntryOk(v, s, i, |s.entries|);
    RefsUpdate(s.entries, i, s1.entries[i]);
    Frame(v, s, s1, |s.entries|, i, |s.entries|);
  }

  /** Entry `i` keeps its place in the lists, or is parked. */
  lemma KeepInv(v: Vol, s: State, i: nat)
    requires Inv(v, s) && i < |s.entries| && i !in s.free
    requires s.entries[i].t.None? && s.entries[i].addr != 0 && 0 < s.entries[i].refcount
    requires s.entries[i].refcount == 1 ==> !s.entries[i].invalid
    ensures Inv(v, Release(v, s, i))
  {
    hide Discard;
    var s1 := Release(v, s, i);
    assert EntryOk(v, s, i, |s.entries|);
    RefsUpdate(s.entries, i, s1.entries[i]);
    Frame(v, s, s1, |s.entries|, i, |s.entries|);
    assert Linked(v, s1, i);
  }

  lemma DropBlankInv(v: Vol, s: State, i: nat)
    requires Inv(v, s) && i < |s.entries| && i !in s.free && s.entries[i].addr == 0
    ensures Inv(v, Release(v, s, i))
  {
    var s1 := Deref(v, s, i);
    assert EntryOk(v, s, i, |s.entries|);
    RefsUpdate(s.entries, i, s1.entries[i]);
    Frame(v, s, s1, |s.entries|, i, |s.entries|);
    PutBackInv(v, s1, i, |s.entries|);
  }

  /** The last reference to an entry whose request failed goes away. */
  ghost predicate DropsFailed(s: State, i: nat) {
    && i < |s.entries|
    && var e := s.entries[i];
       e.refcount == 1 && e.t.None? && e.invalid && e.addr != 0
  }

  /** Destroying a failed entry the way it is meant leaves the cache consistent. */
  lemma DropMeantInv(v: Vol, s: State, i: nat)
    requires Inv(v, s) && i !in s.free && DropsFailed(s, i)
    ensures Inv(v, ReleaseMeant(v, s, i))
  {
    var s0 := Deref(v, s, i);
    var s1 := s0.(clist := ClistRemove(v, s0, i));
    var b := HtIndex(v.htlen, s.entries[i].addr);
    assert EntryOk(v, s, i, |s.entries|);
    assert Linked(v, s, i);
    RemoveNoDup(s.clist[b], i);
    RefsUpdate(s.entries, i, s1.entries[i]);
    Frame(v, s, s1, |s.entries|, i, |s.entries|);
    PutBackInv(v, s1, i, |s.entries|);
  }

  /** The code does what is meant exactly if no failed entry is destroyed while others are
      available. */
  lemma ReleaseMeantExact(v: Vol, s: State, i: nat)
    requires Ranged(v, s) && i < |s.entries| && (DropsFailed(s, i) ==> i !in s.alist)
    ensures Release(v, s, i) == ReleaseMeant(v, s, i) <==> DropsFailed(s, i) ==> s.alist == []
  {}

  /** With entries available, destroying a failed entry makes the cache forget them all. */
  lemma DropFailedForgets(v: Vol, s: State, i: nat)
    requires Inv(v, s) && i !in s.free && DropsFailed(s, i) && s.alist != []
    ensures var s1 := Release(v, s, i);
      && s1.alist == []
      && (forall j :: j in s.alist ==> j !in s1.free && s1.entries[j] == s.entries[j] && s1.entries[j].refcount == 0)
      && !Inv(v, s1)
  {
    var s1 := Release(v, s, i);
    assert EntryOk(v, s, i, |s.entries|);
    forall j | j in s.alist
      ensures j !in s1.free && s1.entries[j] == s.entries[j] && s1.entries[j].refcount == 0
    {
      assert EntryOk(v, s, j, |s.entries|);
    }
    var j := s.alist[0];
    assert j in s.alist;
    assert EntryOk(v, s, j, |s.entries|);
    assert !EntryOk(v, s1, j, |s.entries|);
  }

  /** Releasing a reference keeps the cache consistent except when it is the last one to
      a failed entry while other entries are available. */
  lemma ReleaseInv(v: Vol, s: State, i: nat)
    requires Inv(v, s) && i < |s.entries| && i !in s.free
    requires 0 < s.entries[i].refcount && s.entries[i].t.None?
    ensures Inv(v, Release(v, s, i)) <==> DropsFailed(s, i) ==> s.alist == []
  {
    if s.entries[i].addr == 0 {
      DropBlankInv(v, s, i);
    } else if !DropsFailed(s, i) {
      KeepInv(v, s, i);
    } else if s.alist == [] {
      assert EntryOk(v, s, i, |s.entries|);
      ReleaseMeantExact(v, s, i);
      DropMeantInv(v, s, i);
    } else {
      DropFailedForgets(v, s, i);
    }
  }

  /** What is meant keeps the cache consistent in every case. */
  lemma ReleaseMeantInv(v: Vol, s: State, i: nat)
    requires Inv(v, s) && i < |s.entries| && i !in s.free
    requires 0 < s.entries[i].refcount && s.entries[i].t.None?
    ensures Inv(v, ReleaseMeant(v, s, i))
    ensures Release(v, s, i) == ReleaseMeant(v, s, i) <==> DropsFailed(s, i) ==> s.alist == []
  {
    assert EntryOk(v, s, i, |s.entries|);
    ReleaseMeantExact(v, s, i);
    if DropsFailed(s, i) { DropMeantInv(v, s, i); } else { ReleaseInv(v, s, i); }
  }

  /** A caller that gives up waiting leaves the chain; its reference is then one too many. */
  lemma CancelInv(v: Vol, s: State, i: nat, token: nat)
    requires Inv(v, s) && i < |s.entries| && token in s.entries[i].chain && NoDup(s.entries[i].chain)
    ensures Held(v, Cancel(s, i, Some(token)), i)
  {
    hide HtIndex, Remove;
    var s1 := Cancel(s, i, Some(token));
    assert EntryOk(v, s, i, |s.entries|);
    RemoveNoDup(s.entries[i].chain, token);
    RefsUpdate(s.entries, i, s1.entries[i]);
    assert Linked(v, s1, i);
    FrameHeld(v, s, s1, i, |s.entries|, i);
  }

  lemma AbortInv(v: Vol, s: State, i: nat, token: Option<nat>)
    requires Inv(v, s) && i < |s.entries| && i !in s.free && 0 < s.entries[i].refcount
    requires NoDup(s.entries[i].chain)
    requires s.entries[i].t.Some? ==> token.Some? && token.value in s.entries[i].chain
    ensures Inv(v, Abort(v, s, i, token)) <==> DropsFailed(s, i) ==> s.alist == []
  {
    assert EntryOk(v, s, i, |s.entries|);
    if s.entries[i].t.Some? {
      CancelInv(v, s, i, token.value);
      UnrefInv(v, Cancel(s, i, token), i);
    } else {
      ReleaseInv(v, s, i);
    }
  }

  lemma AbortMeantInv(v: Vol, s: State, i: nat, token: Option<nat>)
    requires Inv(v, s) && i < |s.entries| && i !in s.free && 0 < s.entries[i].refcount
    requires NoDup(s.entries[i].chain)
    requires s.entries[i].t.Some? ==> token.Some? && token.value in s.entries[i].chain
    ensures Inv(v, AbortMeant(v, s, i, token))
    ensures Abort(v, s, i, token) == AbortMeant(v, s, i, token) <==> DropsFailed(s, i) ==> s.alist == []
  {
    assert EntryOk(v, s, i, |s.entries|);
    if s.entries[i].t.Some? {
      AbortInv(v, s, i, token);
      ReleaseMeantExact(v, Cancel(s, i, token), i);
    } else {
      ReleaseMeantInv(v, s, i);
    }
  }

  /** A request that succeeded, or that somebody waits for, leaves its entry in place. */
  lemma NotifyInv(v: Vol, s: State, i: nat, ok: bool, junk: Chunk)
    requires Inv(v, s) && i < |s.entries| && s.entries[i].t.Some?
    requires 0 < s.entries[i].refcount || ok
    ensures Inv(v, Complete(v, s, i, ok, junk))
  {
    var s1 := Complete(v, s, i, ok, junk);
    assert EntryOk(v, s, i, |s.entries|);
    RefsUpdate(s.entries, i, s1.entries[i]);
    Frame(v, s, s1, |s.entries|, i, |s.entries|);
    assert Linked(v, s1, i);
  }

  /** An entry that is available and idle can be discarded. */
  lemma DiscardInv(v: Vol, s: State, i: nat, e: Entry)
    requires Inv(v, s) && i < |s.entries| && i in s.alist
    requires e == s.entries[i].(t := None, invalid := e.invalid, buffer := e.buffer)
    ensures Inv(v, Discard(v, s.(entries := s.entries[i := e]), i))
    ensures SameUsers(s, Discard(v, s.(entries := s.entries[i := e]), i))
  {
    hide HtIndex, Remove;
    var s0 := s.(entries := s.entries[i := e]);
    var s1 := s0.(clist := ClistRemove(v, s0, i), alist := Remove(s.alist, i));
    var b := HtIndex(v.htlen, e.addr);
    assert EntryOk(v, s, i, |s.entries|);
    assert Linked(v, s, i);
    RemoveNoDup(s.alist, i);
    RemoveNoDup(s.clist[b], i);
    RefsUpdate(s.entries, i, e);
    Frame(v, s, s1, |s.entries|, i, |s.entries|);
    PutBackInv(v, s1, i, |s.entries|);
  }

  lemma CompleteInv(v: Vol, s: State, i: nat, ok: bool, junk: Chunk)
    requires Inv(v, s) && i < |s.entries| && s.entries[i].t.Some?
    ensures Inv(v, Complete(v, s, i, ok, junk))
  {
    assert EntryOk(v, s, i, |s.entries|);
    if s.entries[i].refcount == 0 && !ok {
      DiscardInv(v, s, i, s.entries[i].(t := None, invalid := true, buffer := junk));
    } else {
      NotifyInv(v, s, i, ok, junk);
    }
  }

  lemma FlushHeadInv(v: Vol, s: State, ok: bool, junk: Chunk)
    requires Inv(v, s) && s.alist != []
    ensures Inv(v, FlushHead(v, s, ok, junk)) && SameUsers(s, FlushHead(v, s, ok, junk))
  {
    var i := s.alist[0];
    var e := s.entries[i];
    assert i in s.alist;
    if e.t.Some? {
      var data := if ok then v.disk(e.t.value.target) else junk;
      DiscardInv(v, s, i, e.(t := None, invalid := !ok, buffer := data));
    } else {
      DiscardInv(v, s, i, e);
      assert s.entries[i := e] == s.entries;
    }
  }
}
