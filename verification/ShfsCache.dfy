/** The chunk cache as the code runs it: entries, lists and counters are updated in place. */
module ShfsCache {
  import opened Types
  import opened Seqs
  import opened CacheSpec
  import opened CacheInv
  import opened CacheRuns

  /** How many requests are in flight. */
  ghost function Flying(es: seq<Entry>): nat {
    if es == [] then 0
    else Flying(es[..|es| - 1]) + (if es[|es| - 1].t.Some? then 1 else 0)
  }

  lemma {:induction false} FlyingUpdate(es: seq<Entry>, i: nat, e: Entry)
    requires i < |es|
    ensures Flying(es[i := e]) ==
      Flying(es) - (if es[i].t.Some? then 1 else 0) + (if e.t.Some? then 1 else 0)
  {
    var n := |es| - 1;
    if i < n {
      FlyingUpdate(es[..n], i, e);
      assert es[i := e][..n] == es[..n][i := e];
    } else {
      assert es[i := e][..n] == es[..n];
    }
  }

  /** The state that the flush shows to the completion handler while it waits for entry
      `i`: the entry looks referenced, so that a failure does not destroy it. */
  ghost function Raised(s: State, i: nat): State
    requires i < |s.entries|
  {
    s.(entries := s.entries[i := s.entries[i].(refcount := 1)])
  }

  lemma RaisedCommutes(v: Vol, s: State, i: nat, j: nat, ok: bool, junk: Chunk)
    requires Ranged(v, s) && i < |s.entries| && j < |s.entries| && i != j && s.entries[j].t.Some?
    ensures Ranged(v, Raised(s, i))
    ensures Complete(v, Raised(s, i), j, ok, junk) == Raised(Complete(v, s, j, ok, junk), i)
  {
    var e := s.entries[i].(refcount := 1);
    var d := s.entries[j].(t := None, invalid := !ok,
                             buffer := if ok then v.disk(s.entries[j].t.value.target) else junk);
    assert s.entries[i := e][j := d] == s.entries[j := d][i := e];
    var c := d.(chain := []);
    assert s.entries[i := e][j := c] == s.entries[j := c][i := e];
  }

  lemma {:induction false} RemoveHead(l: seq<nat>, x: nat)
    requires l != [] && l[0] != x
    ensures Remove(l, x) != [] && Remove(l, x)[0] == l[0]
  {
    if |l| > 1 { RemoveHead(l[..|l| - 1], x); }
  }

  /** Completions of other requests leave the first available entry where it is. */
  lemma HeadStays(v: Vol, s: State, j: nat, ok: bool, junk: Chunk)
    requires Inv(v, s) && s.alist != [] && j != s.alist[0]
    requires j < |s.entries| && s.entries[j].t.Some?
    ensures var s1 := Complete(v, s, j, ok, junk);
      s1.alist != [] && s1.alist[0] == s.alist[0] && |s1.alist| <= |s.alist|
      && s1.entries[s.alist[0]] == s.entries[s.alist[0]]
  {
    RemoveHead(s.alist, j);
    RemoveNoDup(s.alist, j);
    assert EntryOk(v, s, j, |s.entries|);
  }

  /** The state in which the request of entry `i` is done and nothing else has happened. */
  ghost function Landed(v: Vol, s: State, i: nat, ok: bool, junk: Chunk): State
    requires i < |s.entries| && s.entries[i].t.Some?
  {
    var e := s.entries[i];
    var data := if ok then v.disk(e.t.value.target) else junk;
    s.(entries := s.entries[i := e.(t := None, invalid := !ok, buffer := data)])
  }

  /** What the flush waits for: entry `i`, the first available one, is in flight. */
  ghost predicate Awaited(v: Vol, s: State, i: nat) {
    && Good(v, s) && s.alist != [] && s.alist[0] == i < |s.entries| && s.entries[i].t.Some?
    && s.entries[i].refcount == 0 && s.entries[i].chain == []
  }

  lemma AwaitStart(v: Vol, s: State, i: nat)
    requires Good(v, s) && s.alist != [] && s.alist[0] == i < |s.entries| && s.entries[i].t.Some?
    ensures Awaited(v, s, i) && Run(v, [s], []) && Ranged(v, Raised(s, i))
  {
    assert i in s.alist;
    assert EntryOk(v, s, i, |s.entries|);
  }

  lemma AwaitedRanged(v: Vol, s: State, i: nat)
    requires Awaited(v, s, i)
    ensures Ranged(v, Raised(s, i))
  {}

  lemma AwaitOther(v: Vol, s: State, i: nat, step: Step)
    requires Awaited(v, s, i) && step.DoComplete? && step.id != i
    requires Ranged(v, Raised(s, i)) && Enabled(Raised(s, i), step)
    ensures Leads(v, s, step, Next(v, s, step))
    ensures Awaited(v, Next(v, s, step), i) && |Next(v, s, step).alist| <= |s.alist|
    ensures Next(v, Raised(s, i), step) == Raised(Next(v, s, step), i)
  {
    assert Enabled(s, step);
    RaisedCommutes(v, s, i, step.id, step.ok, step.junk);
    HeadStays(v, s, step.id, step.ok, step.junk);
    StepKeeps(v, s, step);
  }

  lemma AwaitDone(v: Vol, s: State, i: nat, ok: bool, junk: Chunk)
    requires Awaited(v, s, i) && Ranged(v, Raised(s, i))
    ensures Next(v, Raised(s, i), DoComplete(i, ok, junk)) == Raised(Landed(v, s, i, ok, junk), i)
  {
    assert s.log + Notices([], ok, if ok then v.disk(s.entries[i].t.value.target) else junk) == s.log;
  }

  lemma EblankKeeps(v: Vol, s: State)
    requires Good(v, s)
    ensures Ranged(v, s) && Good(v, Eblank(v, s).0)
  {
    StepKeeps(v, s, DoEblank);
  }

  lemma AbortKeeps(v: Vol, s: State, i: nat, token: Option<nat>)
    requires Good(v, s) && Enabled(s, DoAbort(i, token))
    ensures Ranged(v, s) && i < |s.entries| && 0 < s.entries[i].refcount
    ensures Good(v, Abort(v, s, i, token)) <==> Safe(s, DoAbort(i, token))
  {
    StepKeeps(v, s, DoAbort(i, token));
  }

  lemma FlushKeeps(v: Vol, s: State, ok: bool, junk: Chunk)
    requires Good(v, s) && s.alist != []
    ensures Leads(v, s, DoFlush(ok, junk), FlushHead(v, s, ok, junk)) && Good(v, FlushHead(v, s, ok, junk))
  {
    StepKeeps(v, s, DoFlush(ok, junk));
  }

  lemma RunStart(v: Vol, s: State)
    ensures Run(v, [s], [])
  {}

  lemma RunExtend(v: Vol, states: seq<State>, steps: seq<Step>, step: Step, s: State)
    requires Run(v, states, steps) && Leads(v, states[|steps|], step, s)
    ensures Run(v, states + [s], steps + [step])
  {
    hide Leads;
    var all := states + [s];
    forall k | 0 <= k < |steps| + 1
      ensures Leads(v, all[k], (steps + [step])[k], all[k + 1])
    {
      if k < |steps| { assert Leads(v, states[k], steps[k], states[k + 1]); }
    }
  }

  lemma RunConcat(v: Vol, states: seq<State>, steps: seq<Step>, states1: seq<State>, steps1: seq<Step>)
    requires Run(v, states, steps) && Run(v, states1, steps1) && states[|steps|] == states1[0]
    ensures Run(v, states + states1[1..], steps + steps1)
    ensures (states + states1[1..])[|steps| + |steps1|] == states1[|steps1|]
  {
    hide Leads;
    var all := states + states1[1..];
    forall k | 0 <= k < |steps| + |steps1|
      ensures Leads(v, all[k], (steps + steps1)[k], all[k + 1])
    {
      if k < |steps| {
        assert Leads(v, states[k], steps[k], states[k + 1]);
      } else {
        var j := k - |steps|;
        assert Leads(v, states1[j], steps1[j], states1[j + 1]);
      }
    }
  }

  class Cache {
    const vol: Vol
    /** The entries, one in the private area of each pool object. */
    const pool: array<Entry>
    /** The pool's free objects, next one first. */
    var free: seq<nat>
    var alist: seq<nat>
    const htable: array<seq<nat>>
    var nbEntries: int
    var nbRef: int
    /** The tokens handed out and what became of them. */
    var want: seq<nat>
    var log: seq<Event>

    ghost function View(): State
      reads this, pool, htable
    {
      State(pool[..], free, alist, htable[..], nbEntries, nbRef, want, log)
    }

    constructor (vol: Vol, nbObjs: nat)
      requires 0 < vol.htlen
      ensures this.vol == vol && fresh(pool) && fresh(htable)
      ensures Initial(vol, View()) && |View().entries| == nbObjs
    {
      this.vol := vol;
      pool := new Entry[nbObjs](_ => Entry(0, 0, true, None, [], []));
      free := seq(nbObjs, i => i);
      alist := [];
      htable := new seq<nat>[vol.htlen](_ => []);
      nbEntries, nbRef, want, log := 0, 0, [], [];
    }

    /** Looks for the entry of chunk `addr` in its collision list. */
    method FindEntry(addr: nat) returns (r: Option<nat>)
      requires Ranged(vol, View())
      ensures r == Find(vol, View(), addr)
    {
      var l := htable[HtIndex(vol.htlen, addr)];
      var k := 0;
      while k < |l|
        invariant k <= |l|
        invariant InRange(pool[..], l[k..])
        invariant FindIn(pool[..], l, addr) == FindIn(pool[..], l[k..], addr)
      {
        if pool[l[k]].addr == addr { return Some(l[k]); }
        assert l[k..][1..] == l[k + 1..];
        k := k + 1;
      }
      r := None;
    }

    /** Looks for an available entry without a request in flight. */
    method FindIdle() returns (r: Option<nat>)
      requires Ranged(vol, View())
      ensures r == FirstIdle(View().entries, alist)
    {
      var k := 0;
      while k < |alist|
        invariant k <= |alist|
        invariant InRange(pool[..], alist[k..])
        invariant FirstIdle(pool[..], alist) == FirstIdle(pool[..], alist[k..])
      {
        if pool[alist[k]].t.None? { return Some(alist[k]); }
        assert alist[k..][1..] == alist[k + 1..];
        k := k + 1;
      }
      r := None;
    }

    /** Picks a buffer from the pool. */
    method PickCce() returns (r: Option<nat>)
      requires Ranged(vol, View())
      modifies this`free, this`nbEntries, pool
      ensures old(free) == [] ==> r == None && View() == old(View())
      ensures old(free) != [] ==> r.Some? && (View(), r) == Take(vol, old(View()))
    {
      if free == [] { return None; }
      var i := free[0];
      free := free[1..];
      pool[i] := pool[i].(refcount := 0, invalid := true, t := None, chain := []);
      nbEntries := nbEntries + 1;
      r := Some(i);
    }

    /** Returns a buffer to the pool. */
    method PutCce(i: nat)
      requires i < pool.Length
      modifies this`free, this`nbEntries
      ensures View() == PutBack(old(View()), i)
    {
      free := free + [i];
      nbEntries := nbEntries - 1;
    }

    /** Takes an entry out of the collision list of its chunk. */
    method UnlinkClist(i: nat)
      requires Ranged(vol, View()) && i < pool.Length
      modifies htable
      ensures View() == old(View()).(clist := ClistRemove(vol, old(View()), i))
    {
      var b := HtIndex(vol.htlen, pool[i].addr);
      htable[b] := Remove(htable[b], i);
    }

    /** Gets a buffer and puts it at the end of the available list. */
    method Grab(ghost h: nat) returns (r: Option<nat>)
      requires Held(vol, View(), h)
      modifies this, pool, htable
      ensures Ranged(vol, View()) && r == Take(vol, old(View())).1
      ensures r.None? ==> View() == Take(vol, old(View())).0
      ensures r.Some? ==> View() == Park(Take(vol, old(View())).0, r.value)
    {
      hide Remove;
      r := PickCce();
      if r.Some? {
        alist := alist + [r.value];
      } else {
        r := FindIdle();
        if r.Some? {
          UnlinkClist(r.value);
          alist := Remove(alist, r.value) + [r.value];
        }
      }
    }

    /** Requests chunk `addr` into the buffer at the end of the available list; `errno` is
        the devices' answer. */
    method Request(i: nat, addr: nat, errno: nat, ghost s: State) returns (r: Option<nat>)
      requires Ranged(vol, s) && Ranged(vol, View()) && i < pool.Length
      requires View() == Park(s, i) && i !in s.alist
      modifies this, pool, htable
      ensures (View(), r) == Start(vol, s, i, addr, errno)
    {
      pool[i] := pool[i].(addr := addr);
      if errno != 0 {
        RemoveAppended(s.alist, i);
        alist := Unlink(alist, i);
        PutCce(i);
        return None;
      }
      pool[i] := pool[i].(t := Some(Io(addr)));
      assert pool[..] == s.entries[i := s.entries[i].(addr := addr, t := Some(Io(addr)))];
      var b := HtIndex(vol.htlen, addr);
      htable[b] := htable[b] + [i];
      assert htable[..] == s.clist[b := s.clist[b] + [i]];
      r := Some(i);
    }

    /** Requests chunk `addr` into a new entry. */
    method AddEntry(addr: nat, dev: nat -> nat, ghost h: nat) returns (r: Option<nat>, errno: nat)
      requires Held(vol, View(), h)
      modifies this, pool, htable
      ensures (View(), r) == Add(vol, old(View()), addr, dev)
      ensures errno == AddError(vol, old(View()), addr, dev)
    {
      ghost var s := View();
      TakeInv(vol, s, h);
      r := Grab(h);
      if r.None? { return None, EAGAIN; }
      errno := dev(addr);
      r := Request(r.value, addr, errno, Take(vol, s).0);
    }

    /** Requests the chunks after `addr` that are not in the cache yet. */
    method ReadAheadFrom(addr: nat, dev: nat -> nat, ghost h: nat)
      requires Held(vol, View(), h) && h < pool.Length
      modifies this, pool, htable
      ensures View() == ReadAhead(vol, old(View()), addr, 1, dev)
    {
      hide Find, Add, AddError, EntryOk, Unique, Counts;
      var i := 1;
      while i <= READAHEAD
        invariant 1 <= i <= READAHEAD + 1
        invariant Held(vol, View(), h) && h < pool.Length
        invariant ReadAhead(vol, old(View()), addr, 1, dev) == ReadAhead(vol, View(), addr, i, dev)
        decreases READAHEAD + 1 - i
      {
        if vol.volsize <= addr + i { return; }
        ObtainInv(vol, View(), addr + i, dev, h);
        var found := FindEntry(addr + i);
        if found.None? {
          var errno;
          found, errno := AddEntry(addr + i, dev, h);
          if found.None? { return; }
        }
        i := i + 1;
      }
    }

    /** `shfs_cache_aread`: asks for a chunk. */
    method Read(addr: nat, dev: nat -> nat, tokenOk: bool) returns (r: AreadResult)
      requires Good(vol, View())
      modifies this, pool, htable
      ensures (View(), r) == Aread(vol, old(View()), addr, dev, tokenOk)
      ensures Good(vol, View())
    {
      hide EntryOk, Unique, Lists, Counts;
      ghost var s := View();
      AreadKeeps(vol, s, addr, dev, tokenOk);
      if !vol.mounted { return Error(ENODEV); }
      if addr == 0 || vol.volsize < addr { return Error(EINVAL); }
      ObtainInv(vol, s, addr, dev, pool.Length);
      var found := FindEntry(addr);
      if found.None? {
        var errno;
        found, errno := AddEntry(addr, dev, pool.Length);
        if found.None? { return Error(errno); }
      }
      var i := found.value;
      RefInv(vol, View(), i);
      Reference(i);
      ReadAheadInv(vol, View(), addr, 1, dev, i);
      ReadAheadFrom(addr, dev, i);
      r := Reply(i, addr, tokenOk);
    }

    /** Counts one more reference. */
    method Reference(i: nat)
      requires Ranged(vol, View()) && i < pool.Length
      modifies this, pool
      ensures View() == Ref(vol, old(View()), i)
    {
      if pool[i].refcount == 0 {
        alist := Unlink(alist, i);
        nbRef := nbRef + 1;
      }
      pool[i] := pool[i].(refcount := pool[i].refcount + 1);
    }

    /** Counts one reference less. */
    method Dereference(i: nat)
      requires Ranged(vol, View()) && i < pool.Length
      modifies this`nbRef, pool
      ensures View() == Deref(vol, old(View()), i)
    {
      pool[i] := pool[i].(refcount := pool[i].refcount - 1);
      if pool[i].refcount == 0 { nbRef := nbRef - 1; }
    }

    /** Answers a caller: data, or a token at the end of the entry's chain. */
    method Reply(i: nat, addr: nat, tokenOk: bool) returns (r: AreadResult)
      requires Ranged(vol, View()) && i < pool.Length
      modifies this, pool
      ensures (View(), r) == Answer(vol, old(View()), i, addr, tokenOk)
    {
      if pool[i].t.None? { return Hit(i); }
      if !tokenOk {
        Dereference(i);
        if pool[i].refcount == 0 { alist := alist + [i]; }
        return Error(EAGAIN);
      }
      var k := |want|;
      want := want + [addr];
      pool[i] := pool[i].(chain := pool[i].chain + [k]);
      r := Wait(i, k);
    }

    /** Gets a buffer that is in no list. */
    method Acquire() returns (r: Option<nat>)
      requires Ranged(vol, View())
      modifies this, pool, htable
      ensures (View(), r) == Take(vol, old(View()))
    {
      r := PickCce();
      if r.None? {
        r := FindIdle();
        if r.Some? {
          UnlinkClist(r.value);
          alist := Unlink(alist, r.value);
        }
      }
    }

    /** `shfs_cache_eblank`: asks for a blank buffer. */
    method Blank() returns (r: Option<nat>)
      requires Good(vol, View())
      modifies this, pool, htable
      ensures (View(), r) == Eblank(vol, old(View()))
      ensures Good(vol, View())
    {
      hide Good, Inv, Next;
      EblankKeeps(vol, View());
      if !vol.mounted { return None; }
      r := Acquire();
      if r.None? { return; }
      var i := r.value;
      ghost var s := View();
      pool[i] := pool[i].(refcount := 1);
      nbRef := nbRef + 1;
      pool[i] := pool[i].(t := None, addr := 0, invalid := true);
      assert pool[..] == s.entries[i := s.entries[i].(refcount := 1, t := None, addr := 0, invalid := true)];
    }

    /** Takes entry `i` out of both lists and returns its buffer. */
    method Destroy(i: nat)
      requires Ranged(vol, View()) && i < pool.Length
      modifies this, htable
      ensures View() == Discard(vol, old(View()), i)
    {
      UnlinkClist(i);
      alist := Unlink(alist, i);
      PutCce(i);
    }

    /** `shfs_cache_release`: gives a reference back. */
    method Drop(i: nat)
      requires Good(vol, View()) && Enabled(View(), DoRelease(i))
      modifies this, pool, htable
      ensures View() == Release(vol, old(View()), i)
      ensures Good(vol, View()) <==> Safe(old(View()), DoRelease(i))
    {
      StepKeeps(vol, View(), DoRelease(i));
      Dereference(i);
      if pool[i].refcount == 0 {
        if !pool[i].invalid {
          alist := alist + [i];
        } else if pool[i].addr != 0 {
          Destroy(i);
        } else {
          PutCce(i);
        }
      }
    }

    /** `shfs_cache_release_ioabort`: gives a reference back whether or not the request is
        done, and the token with it. */
    method DropAbort(i: nat, token: Option<nat>)
      requires Good(vol, View()) && Enabled(View(), DoAbort(i, token))
      modifies this, pool, htable
      ensures View() == Abort(vol, old(View()), i, token)
      ensures Good(vol, View()) <==> Safe(old(View()), DoAbort(i, token))
    {
      hide Good, Inv, Next, Retire, Deref;
      AbortKeeps(vol, View(), i, token);
      if token.Some? && token.value in pool[i].chain {
        pool[i] := pool[i].(chain := Remove(pool[i].chain, token.value));
        log := log + [Aborted(token.value)];
      }
      assert View() == Cancel(old(View()), i, token);
      Dereference(i);
      if pool[i].refcount == 0 { Resettle(i); }
    }

    /** What becomes of an entry that lost its last reference to a release that aborts. */
    method Resettle(i: nat)
      requires Ranged(vol, View()) && i < pool.Length
      modifies this, pool, htable
      ensures View() == Retire(vol, old(View()), i)
    {
      if pool[i].t.None? && pool[i].invalid {
        if pool[i].addr != 0 { Destroy(i); } else { PutCce(i); }
      } else {
        alist := alist + [i];
      }
    }

    /** Calls the waiters back in the order they came. */
    method Notify(chain: seq<nat>, ok: bool, data: Chunk)
      modifies this`log
      ensures log == old(log) + Notices(chain, ok, data)
    {
      for k := 0 to |chain|
        invariant log == old(log) + Notices(chain[..k], ok, data)
      {
        log := log + [Notified(chain[k], ok, data)];
      }
      assert chain[..|chain|] == chain;
    }

    /** `_cce_aiocb`: the devices report the end of entry `i`'s request and have written the
        buffer; the waiters are called back. */
    method Callback(i: nat, ok: bool, junk: Chunk)
      requires Ranged(vol, View()) && i < pool.Length && pool[i].t.Some?
      modifies this, pool, htable
      ensures View() == Complete(vol, old(View()), i, ok, junk)
    {
      hide Discard;
      ghost var s := View();
      var data := if ok then vol.disk(pool[i].t.value.target) else junk;
      pool[i] := pool[i].(buffer := data);
      pool[i] := pool[i].(t := None, invalid := !ok);
      assert View() == s.(entries := s.entries[i := s.entries[i].(t := None, invalid := !ok, buffer := data)]);
      if pool[i].refcount == 0 && pool[i].invalid {
        Destroy(i);
        return;
      }
      var chain := pool[i].chain;
      pool[i] := pool[i].(chain := []);
      Notify(chain, ok, data);
    }

    /** The devices deliver the completion of a request that is in flight; which one, and
        how it ended, is up to them; only requests for chunks of `fails` can fail. */
    method Poll(fails: nat -> bool) returns (ghost step: Step)
      requires Ranged(vol, View()) && exists i :: 0 <= i < pool.Length && pool[i].t.Some?
      modifies this, pool, htable
      ensures step.DoComplete? && Enabled(old(View()), step)
      ensures !step.ok ==> fails(old(View()).entries[step.id].t.value.target)
      ensures View() == Next(vol, old(View()), step)
      ensures Flying(pool[..]) < old(Flying(pool[..]))
    {
      var i :| 0 <= i < pool.Length && pool[i].t.Some?;
      var ok: bool := *;
      if !fails(pool[i].t.value.target) { ok := true; }
      var junk: Chunk := *;
      ghost var es := pool[..];
      Callback(i, ok, junk);
      FlyingUpdate(es, i, pool[i]);
      assert pool[..] == es[i := pool[i]];
      step := DoComplete(i, ok, junk);
    }

    /** Waits, without letting other threads run, for the request of the first available
        entry. The other completions that are delivered meanwhile lead to `s`. */
    method Await(i: nat) returns (ghost states: seq<State>, ghost steps: seq<Step>,
                                  ghost s: State, ghost ok: bool, ghost junk: Chunk)
      requires Good(vol, View()) && alist != [] && alist[0] == i < pool.Length && pool[i].t.Some?
      modifies this, pool, htable
      ensures Run(vol, states, steps) && states[0] == old(View()) && states[|steps|] == s
      ensures forall k :: 0 <= k < |steps| ==> steps[k].DoComplete?
      ensures Awaited(vol, s, i) && |s.alist| <= |old(alist)|
      ensures View() == Landed(vol, s, i, ok, junk)
    {
      hide Good, Leads, Inv, Next, Flying, Conserved, Safe;
      AwaitStart(vol, View(), i);
      states, steps, s, ok, junk := [View()], [], View(), true, [];
      pool[i] := pool[i].(refcount := 1);
      while pool[i].t.Some?
        invariant Awaited(vol, s, i) && |s.alist| <= |old(alist)|
        invariant Run(vol, states, steps) && states[0] == old(View()) && states[|steps|] == s
        invariant forall k :: 0 <= k < |steps| ==> steps[k].DoComplete?
        invariant View() == Raised(if pool[i].t.Some? then s else Landed(vol, s, i, ok, junk), i)
        decreases Flying(pool[..])
      {
        AwaitedRanged(vol, s, i);
        var step := Poll(_ => true);
        if step.id == i {
          ok, junk := step.ok, step.junk;
          AwaitDone(vol, s, i, ok, junk);
        } else {
          AwaitOther(vol, s, i, step);
          ghost var s1 := Next(vol, s, step);
          RunExtend(vol, states, steps, step, s1);
          states, steps, s := states + [s1], steps + [step], s1;
        }
      }
      pool[i] := pool[i].(refcount := 0);
      ghost var l := Landed(vol, s, i, ok, junk);
      assert Raised(l, i).entries[i := l.entries[i]] == l.entries;
    }

    /** One round of the flush: waits for the first available entry if its request is in
        flight, then destroys it. */
    method FlushFirst() returns (ghost states: seq<State>, ghost steps: seq<Step>)
      requires Good(vol, View()) && alist != []
      modifies this, pool, htable
      ensures Run(vol, states, steps) && states[0] == old(View()) && states[|steps|] == View()
      ensures forall k :: 0 <= k < |steps| ==> steps[k].DoComplete? || steps[k].DoFlush?
      ensures Good(vol, View()) && |alist| < |old(alist)|
    {
      hide Leads, EntryOk, Conserved, Counts, Unique, Next, Safe, Enabled;
      var i := alist[0];
      assert i in alist;
      states, steps := [View()], [];
      RunStart(vol, View());
      ghost var s := View();
      ghost var ok, junk := true, [];
      if pool[i].t.Some? {
        states, steps, s, ok, junk := Await(i);
      }
      Destroy(i);
      assert View() == FlushHead(vol, s, ok, junk);
      FlushKeeps(vol, s, ok, junk);
      RunExtend(vol, states, steps, DoFlush(ok, junk), View());
      states, steps := states + [View()], steps + [DoFlush(ok, junk)];
      assert i in s.alist;
      RemoveNoDup(s.alist, i);
    }

    /** `shfs_flush_cache`: destroys all available entries, waiting for those in flight. If
        nobody holds a reference, every buffer is back in the pool afterwards. */
    method Flush() returns (ghost states: seq<State>, ghost steps: seq<Step>)
      requires Good(vol, View())
      modifies this, pool, htable
      ensures Run(vol, states, steps) && states[0] == old(View()) && states[|steps|] == View()
      ensures forall k :: 0 <= k < |steps| ==> steps[k].DoComplete? || steps[k].DoFlush?
      ensures Good(vol, View()) && alist == []
      ensures nbRef == 0 <==> |free| == pool.Length
    {
      states, steps := [View()], [];
      while alist != []
        invariant Good(vol, View())
        invariant Run(vol, states, steps) && states[0] == old(View()) && states[|steps|] == View()
        invariant forall k :: 0 <= k < |steps| ==> steps[k].DoComplete? || steps[k].DoFlush?
        decreases |alist|
      {
        ghost var states1, steps1 := FlushFirst();
        RunConcat(vol, states, steps, states1, steps1);
        states, steps := states + states1[1..], steps + steps1;
      }
      FlushedPoolFull(vol, View());
    }
  }
}
