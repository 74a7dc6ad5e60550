/** The chunk cache: its state and what each operation does to it.

    Cache entries are named by their number in the buffer pool, tokens by the order in
    which they were handed out. The lists are the contents of the intrusive lists, from
    first to last; modules DList and CacheLists show that the pointer code computes them. */
module CacheSpec {
  import opened Types
  import opened Seqs
  import Bits

  type Chunk = seq<Byte>

  /** How many chunks are read ahead of a request. */
  const READAHEAD := 2

  /** What the cache knows of the volume. `disk` is the content of its chunks. */
  datatype Vol = Vol(mounted: bool, volsize: nat, htlen: nat, disk: nat -> Chunk)

  /** A read request that is in flight, and the chunk it was issued for. */
  datatype Io = Io(target: nat)

  datatype Entry = Entry(
    addr: nat, refcount: int, invalid: bool, t: Option<Io>, chain: seq<nat>, buffer: Chunk)

  /** What can happen to a waiter's token: its callback fires, with the outcome of the
      request and the buffer as the callback finds it, or its owner gives it up. */
  datatype Event =
    | Notified(token: nat, ok: bool, data: Chunk)
    | Aborted(token: nat)

  /** `want[k]` is the chunk that waiter token `k` was handed out for; `log` records, in
      order, the end of every token. */
  datatype State = State(
    entries: seq<Entry>, free: seq<nat>, alist: seq<nat>, clist: seq<seq<nat>>,
    nbEntries: int, nbRef: int, want: seq<nat>, log: seq<Event>)

  function HtIndex(htlen: nat, addr: nat): (i: nat)
    requires 0 < htlen
    ensures i < htlen
  {
    Bits.And(addr % 0x1_0000_0000, htlen - 1)
  }

  /** All entry numbers the lists mention exist. */
  ghost predicate Ranged(v: Vol, s: State) {
    && 0 < v.htlen == |s.clist|
    && InRange(s.entries, s.free)
    && InRange(s.entries, s.alist)
    && (forall b :: 0 <= b < |s.clist| ==> InRange(s.entries, s.clist[b]))
  }

  ghost predicate InRange(es: seq<Entry>, l: seq<nat>) {
    forall k :: 0 <= k < |l| ==> l[k] < |es|
  }

  /** The first entry of `l` that holds chunk `addr`. */
  function FindIn(es: seq<Entry>, l: seq<nat>, addr: nat): (r: Option<nat>)
    requires InRange(es, l)
    ensures r.Some? ==> r.value in l && es[r.value].addr == addr
    ensures r.None? ==> forall i :: i in l ==> es[i].addr != addr
  {
    if l == [] then None
    else if es[l[0]].addr == addr then Some(l[0])
    else FindIn(es, l[1..], addr)
  }

  /** The first entry of `l` without a request in flight. */
  function FirstIdle(es: seq<Entry>, l: seq<nat>): (r: Option<nat>)
    requires InRange(es, l)
    ensures r.Some? ==> r.value in l && es[r.value].t.None?
    ensures r.None? ==> forall i :: i in l ==> es[i].t.Some?
  {
    if l == [] then None
    else if es[l[0]].t.None? then Some(l[0])
    else FirstIdle(es, l[1..])
  }

  function Find(v: Vol, s: State, addr: nat): (r: Option<nat>)
    requires Ranged(v, s)
  {
    FindIn(s.entries, s.clist[HtIndex(v.htlen, addr)], addr)
  }

  function ClistRemove(v: Vol, s: State, i: nat): (r: seq<seq<nat>>)
    requires Ranged(v, s) && i < |s.entries|
  {
    var b := HtIndex(v.htlen, s.entries[i].addr);
    s.clist[b := Remove(s.clist[b], i)]
  }

  /** What unlinking `x` leaves of a list: an element that is linked nowhere has no
      neighbours, so unlinking it resets both ends of the list. */
  function Unlink(l: seq<nat>, x: nat): (r: seq<nat>)
    ensures forall k :: 0 <= k < |r| ==> r[k] in l
  {
    if x in l then Remove(l, x) else []
  }

  /** Gets a buffer that is in no list: a free one from the pool or, if there is none,
      the available entry unused for longest that has no request in flight. */
  function Take(v: Vol, s: State): (r: (State, Option<nat>))
    requires Ranged(v, s)
    ensures Ranged(v, r.0) && |r.0.entries| == |s.entries|
    ensures r.1.Some? ==> r.1.value < |s.entries|
  {
    if s.free != [] then
      var i := s.free[0];
      var e := s.entries[i].(refcount := 0, invalid := true, t := None, chain := []);
      (s.(free := s.free[1..], nbEntries := s.nbEntries + 1, entries := s.entries[i := e]), Some(i))
    else match FirstIdle(s.entries, s.alist)
      case None => (s, None)
      case Some(i) => (s.(clist := ClistRemove(v, s, i), alist := Remove(s.alist, i)), Some(i))
  }

  /** Returns buffer `i` to the pool. */
  function PutBack(s: State, i: nat): (r: State) {
    s.(free := s.free + [i], nbEntries := s.nbEntries - 1)
  }

  /** Requests chunk `addr` into buffer `i`, which is in no list. `errno` is 0 if the
      devices accept the request. */
  function Start(v: Vol, s: State, i: nat, addr: nat, errno: nat): (r: (State, Option<nat>))
    requires Ranged(v, s) && i < |s.entries|
    ensures Ranged(v, r.0) && |r.0.entries| == |s.entries|
    ensures r.1.Some? ==> r.1.value < |s.entries|
  {
    if errno == 0 then
      var b := HtIndex(v.htlen, addr);
      var e := s.entries[i].(addr := addr, t := Some(Io(addr)));
      (s.(entries := s.entries[i := e], alist := s.alist + [i],
          clist := s.clist[b := s.clist[b] + [i]]), Some(i))
    else
      (PutBack(s.(entries := s.entries[i := s.entries[i].(addr := addr)]), i), None)
  }

  /** Requests chunk `addr` into a new entry. `dev(addr)` is 0 if the devices accept the
      request and the error number otherwise. */
  function Add(v: Vol, s: State, addr: nat, dev: nat -> nat): (r: (State, Option<nat>))
    requires Ranged(v, s)
    ensures Ranged(v, r.0) && |r.0.entries| == |s.entries|
    ensures r.1.Some? ==> r.1.value < |s.entries|
  {
    var (s1, got) := Take(v, s);
    if got.None? then (s1, None) else Start(v, s1, got.value, addr, dev(addr))
  }

  /** Why `Add` found no entry: no buffer was left, or the devices refused. */
  function AddError(v: Vol, s: State, addr: nat, dev: nat -> nat): nat
    requires Ranged(v, s)
  {
    if Take(v, s).1.None? then EAGAIN else dev(addr)
  }

  /** The entry of chunk `addr`, requested if it is not there yet. */
  function Obtain(v: Vol, s: State, addr: nat, dev: nat -> nat): (r: (State, Option<nat>))
    requires Ranged(v, s)
    ensures Ranged(v, r.0) && |r.0.entries| == |s.entries|
    ensures r.1.Some? ==> r.1.value < |s.entries|
  {
    var found := Find(v, s, addr);
    if found.Some? then (s, found) else Add(v, s, addr, dev)
  }

  function ReadAhead(v: Vol, s: State, addr: nat, i: nat, dev: nat -> nat): (r: State)
    requires Ranged(v, s)
    ensures Ranged(v, r) && |r.entries| == |s.entries|
    decreases READAHEAD + 1 - i
  {
    if READAHEAD < i || v.volsize <= addr + i then
      s
    else
      var (s1, got) := Obtain(v, s, addr + i, dev);
      if got.None? then s1 else ReadAhead(v, s1, addr, i + 1, dev)
  }

  datatype AreadResult = Hit(id: nat) | Wait(id: nat, token: nat) | Error(errno: nat)

  /** One more reference to entry `i`. */
  function Ref(v: Vol, s: State, i: nat): (r: State)
    requires Ranged(v, s) && i < |s.entries|
    ensures Ranged(v, r) && |r.entries| == |s.entries|
  {
    var e := s.entries[i];
    var s1 := s.(entries := s.entries[i := e.(refcount := e.refcount + 1)]);
    if e.refcount == 0 then s1.(alist := Unlink(s.alist, i), nbRef := s.nbRef + 1) else s1
  }

  /** One reference to entry `i` less. */
  function Deref(v: Vol, s: State, i: nat): (r: State)
    requires Ranged(v, s) && i < |s.entries|
    ensures Ranged(v, r) && |r.entries| == |s.entries|
  {
    var e := s.entries[i];
    var s1 := s.(entries := s.entries[i := e.(refcount := e.refcount - 1)]);
    if e.refcount == 1 then s1.(nbRef := s.nbRef - 1) else s1
  }

  /** Makes entry `i` the most recently used of the available ones. */
  function Park(s: State, i: nat): (r: State) {
    s.(alist := s.alist + [i])
  }

  /** The answer to a caller that now holds a reference to entry `i`: the data is there,
      or a token to wait for it, or the reference is taken back for lack of a token. */
  function Answer(v: Vol, s: State, i: nat, addr: nat, tokenOk: bool): (r: (State, AreadResult))
    requires Ranged(v, s) && i < |s.entries|
  {
    var e := s.entries[i];
    if e.t.None? then
      (s, Hit(i))
    else if !tokenOk then
      var s1 := Deref(v, s, i);
      (if e.refcount == 1 then Park(s1, i) else s1, Error(EAGAIN))
    else
      var k := |s.want|;
      (s.(want := s.want + [addr], entries := s.entries[i := e.(chain := e.chain + [k])]), Wait(i, k))
  }

  /** Requests chunk `addr` for a caller. `tokenOk` tells whether a token is left. */
  function Aread(v: Vol, s: State, addr: nat, dev: nat -> nat, tokenOk: bool): (r: (State, AreadResult))
    requires Ranged(v, s)
  {
    if !v.mounted then (s, Error(ENODEV))
    else if addr == 0 || v.volsize < addr then (s, Error(EINVAL))
    else
      var (s1, got) := Obtain(v, s, addr, dev);
      if got.None? then
        (s1, Error(AddError(v, s, addr, dev)))
      else
        Answer(v, ReadAhead(v, Ref(v, s1, got.value), addr, 1, dev), got.value, addr, tokenOk)
  }

  /** A private buffer that belongs to no chunk. */
  function Eblank(v: Vol, s: State): (r: (State, Option<nat>))
    requires Ranged(v, s)
  {
    if !v.mounted then (s, None)
    else
      var (s1, got) := Take(v, s);
      if got.None? then (s1, None)
      else
        var i := got.value;
        var e := s1.entries[i].(refcount := 1, t := None, addr := 0, invalid := true);
        (s1.(entries := s1.entries[i := e], nbRef := s1.nbRef + 1), got)
  }

  /** Takes entry `i` out of both lists and returns its buffer to the pool. */
  function Discard(v: Vol, s: State, i: nat): (r: State)
    requires Ranged(v, s) && i < |s.entries|
    ensures Ranged(v, r) && |r.entries| == |s.entries|
  {
    PutBack(s.(clist := ClistRemove(v, s, i), alist := Unlink(s.alist, i)), i)
  }

  /** What becomes of an entry that lost its last reference: without its data it is
      destroyed (a blank buffer is in no list), otherwise it stays available. */
  function Retire(v: Vol, s: State, i: nat): (r: State)
    requires Ranged(v, s) && i < |s.entries|
    ensures Ranged(v, r) && |r.entries| == |s.entries|
  {
    var e := s.entries[i];
    if e.t.Some? || !e.invalid then Park(s, i)
    else if e.addr == 0 then PutBack(s, i)
    else Discard(v, s, i)
  }

  /** The caller gives back a reference to an entry whose request is done. */
  function Release(v: Vol, s: State, i: nat): (r: State)
    requires Ranged(v, s) && i < |s.entries|
    ensures Ranged(v, r) && |r.entries| == |s.entries|
  {
    var s1 := Deref(v, s, i);
    if s1.entries[i].refcount == 0 then Retire(v, s1, i) else s1
  }

  /** What a release is meant to do: a failed entry leaves its collision list only, because
      it is in no other. */
  function ReleaseMeant(v: Vol, s: State, i: nat): (r: State)
    requires Ranged(v, s) && i < |s.entries|
    ensures Ranged(v, r) && |r.entries| == |s.entries|
  {
    var s1 := Deref(v, s, i);
    var e := s1.entries[i];
    if e.refcount == 0 && e.t.None? && e.invalid && e.addr != 0 then
      PutBack(s1.(clist := ClistRemove(v, s1, i)), i)
    else
      Release(v, s, i)
  }

  /** The caller stops waiting on its token, if it still does. */
  function Cancel(s: State, i: nat, token: Option<nat>): (r: State)
    requires i < |s.entries|
  {
    var e := s.entries[i];
    if token.Some? && token.value in e.chain then
      s.(entries := s.entries[i := e.(chain := Remove(e.chain, token.value))],
         log := s.log + [Aborted(token.value)])
    else
      s
  }

  /** The caller gives back a reference whether or not the request is done. */
  function Abort(v: Vol, s: State, i: nat, token: Option<nat>): (r: State)
    requires Ranged(v, s) && i < |s.entries|
    ensures Ranged(v, r) && |r.entries| == |s.entries|
  {
    Release(v, Cancel(s, i, token), i)
  }

  function AbortMeant(v: Vol, s: State, i: nat, token: Option<nat>): (r: State)
    requires Ranged(v, s) && i < |s.entries|
    ensures Ranged(v, r) && |r.entries| == |s.entries|
  {
    ReleaseMeant(v, Cancel(s, i, token), i)
  }

  /** The callbacks of the waiters, first come first served. */
  function Notices(chain: seq<nat>, ok: bool, data: Chunk): (r: seq<Event>)
    ensures |r| == |chain|
    ensures forall k :: 0 <= k < |chain| ==> r[k] == Notified(chain[k], ok, data)
  {
    seq(|chain|, k requires 0 <= k < |chain| => Notified(chain[k], ok, data))
  }

  /** The request of entry `i` is done. A successful one leaves the chunk it was issued
      for in the buffer, a failed one leaves `junk`. */
  function Complete(v: Vol, s: State, i: nat, ok: bool, junk: Chunk): (r: State)
    requires Ranged(v, s) && i < |s.entries| && s.entries[i].t.Some?
    ensures Ranged(v, r) && |r.entries| == |s.entries|
  {
    var e := s.entries[i];
    var data := if ok then v.disk(e.t.value.target) else junk;
    var e1 := e.(t := None, invalid := !ok, buffer := data);
    if e.refcount == 0 && !ok then
      Discard(v, s.(entries := s.entries[i := e1]), i)
    else
      s.(entries := s.entries[i := e1.(chain := [])], log := s.log + Notices(e.chain, ok, data))
  }

  /** The owner of a blank buffer fills it. */
  function Fill(s: State, i: nat, data: Chunk): (r: State)
    requires i < |s.entries|
  {
    s.(entries := s.entries[i := s.entries[i].(buffer := data)])
  }

  /** One round of the flush: the first available entry, once its request is done with
      the given outcome, goes back to the pool. */
  function FlushHead(v: Vol, s: State, ok: bool, junk: Chunk): (r: State)
    requires Ranged(v, s) && s.alist != []
    ensures Ranged(v, r) && |r.entries| == |s.entries|
  {
    var i := s.alist[0];
    var e := s.entries[i];
    var s1 :=
      if e.t.None? then s
      else
        var data := if ok then v.disk(e.t.value.target) else junk;
        s.(entries := s.entries[i := e.(t := None, invalid := !ok, buffer := data)]);
    Discard(v, s1, i)
  }
}
