/** What the steps of the chunk cache do, as far as a user of the cache can tell. */
module CacheMeans {
  import opened Types
  import opened Seqs
  import opened CacheSpec
  import opened CacheInv
  import opened CacheRuns
  import Bits

  /** Only entry `i` differs. */
  ghost predicate Others(s: State, s1: State, i: nat) {
    && |s1.entries| == |s.entries| && s1.want == s.want
    && forall j :: 0 <= j < |s.entries| && j != i ==> s1.entries[j] == s.entries[j]
  }

  /** Buffer `i` went back to the pool; the other entries are in the lists they were in. */
  ghost predicate GivenBack(s: State, s1: State, i: nat) {
    && s1.free == s.free + [i] && Unlinked(s1, i)
    && (forall j :: j in s1.alist <==> j in s.alist && j != i)
    && |s1.clist| == |s.clist|
    && forall b, j :: 0 <= b < |s.clist| && j != i ==> (j in s1.clist[b] <==> j in s.clist[b])
  }

  /** The waiters of `chain` are told, in this order, how their request ended. */
  ghost predicate Told(log: seq<Event>, log1: seq<Event>, chain: seq<nat>, ok: bool, data: Chunk) {
    && |log1| == |log| + |chain| && log1[..|log|] == log
    && forall k :: 0 <= k < |chain| ==>
         var e := log1[|log| + k];
         e.Notified? && e.token == chain[k] && e.ok == ok && (ok ==> e.data == data)
  }

  // ---------------------------------------------------------------- completion

  /** A request that succeeds makes its entry valid, with the chunk in its buffer, and every waiter
      is told that it succeeded. One that fails makes its entry invalid, and every waiter is told
      that; if nobody references the entry, it goes back to the pool. */
  lemma CompletionMeans(v: Vol, s: State, i: nat, ok: bool, junk: Chunk)
    requires Good(v, s) && Enabled(s, DoComplete(i, ok, junk))
    ensures var s1, e := Next(v, s, DoComplete(i, ok, junk)), s.entries[i];
      && Others(s, s1, i) && s1.entries[i].t.None?
      && Told(s.log, s1.log, e.chain, ok, v.disk(e.addr))
      && if ok || 0 < e.refcount then
           var e1 := s1.entries[i];
           && e1.addr == e.addr && e1.refcount == e.refcount && e1.chain == [] && e1.invalid == !ok
           && (ok ==> e1.buffer == v.disk(e.addr))
           && s1.free == s.free && s1.alist == s.alist && s1.clist == s.clist
         else
           GivenBack(s, s1, i)
  {
    assert EntryOk(v, s, i, |s.entries|);
    if !ok && s.entries[i].refcount == 0 {
      Discarded(v, s, i, s.entries[i].(t := None, invalid := true, buffer := junk));
    }
  }

  lemma Discarded(v: Vol, s: State, i: nat, e: Entry)
    requires Inv(v, s) && i in s.alist && i < |s.entries| && e.addr == s.entries[i].addr
    requires Ranged(v, s.(entries := s.entries[i := e]))
    ensures GivenBack(s, Discard(v, s.(entries := s.entries[i := e]), i), i)
  {
    assert EntryOk(v, s, i, |s.entries|);
    assert Linked(v, s, i);
  }

  // ---------------------------------------------------------------- release

  /** A reference less, and nothing else. */
  ghost predicate OneLess(s: State, s1: State, i: nat)
    requires i < |s.entries|
  {
    s1 == s.(entries := s.entries[i := s.entries[i].(refcount := s.entries[i].refcount - 1)], nbRef := s1.nbRef)
  }

  /** What becomes of entry `i` with one reference less: while others are left, nothing; a chunk
      that is there or still to come stays and becomes the last one available; otherwise the
      buffer goes back to the pool. */
  ghost predicate LetGo(s: State, s1: State, i: nat)
    requires i < |s.entries|
  {
    var e := s.entries[i];
    if e.refcount != 1 then
      OneLess(s, s1, i)
    else if e.t.Some? || !e.invalid then
      OneLess(s.(alist := s.alist + [i]), s1, i)
    else
      Others(s, s1, i) && GivenBack(s, s1, i) && s1.alist == s.alist && s1.log == s.log
  }

  lemma LetGoMeant(v: Vol, s: State, i: nat)
    requires Ranged(v, s) && i < |s.entries| && i !in s.alist && NoDups(s)
    requires if s.entries[i].addr == 0 then Unlinked(s, i) else Linked(v, s, i)
    requires s.entries[i].addr == 0 ==> s.entries[i].t.None? && s.entries[i].invalid
    ensures LetGo(s, ReleaseMeant(v, s, i), i)
  {}

  ghost predicate NoDups(s: State) {
    forall b :: 0 <= b < |s.clist| ==> NoDup(s.clist[b])
  }

  lemma ReleaseMeans(v: Vol, s: State, i: nat)
    requires Good(v, s) && Enabled(s, DoRelease(i))
    ensures LetGo(s, Meant(v, s, DoRelease(i)), i)
  {
    assert EntryOk(v, s, i, |s.entries|);
    LetGoMeant(v, s, i);
  }

  /** The caller's token leaves the chain, if it still waits, and that is recorded. */
  ghost predicate GivenUp(s: State, s1: State, i: nat, token: Option<nat>)
    requires i < |s.entries| == |s1.entries|
  {
    var e := s.entries[i];
    if token.Some? && token.value in e.chain then
      && s1 == s.(entries := s.entries[i := e.(chain := s1.entries[i].chain)], log := s.log + [Aborted(token.value)])
      && forall x :: x in s1.entries[i].chain <==> x in e.chain && x != token.value
    else
      s1 == s
  }

  lemma AbortMeans(v: Vol, s: State, i: nat, token: Option<nat>) returns (mid: State)
    requires Good(v, s) && Enabled(s, DoAbort(i, token))
    ensures |mid.entries| == |s.entries| && GivenUp(s, mid, i, token)
    ensures LetGo(mid, Meant(v, s, DoAbort(i, token)), i)
  {
    mid := Cancel(s, i, token);
    assert EntryOk(v, s, i, |s.entries|);
    assert Linked(v, s, i) ==> Linked(v, mid, i);
    LetGoMeant(v, mid, i);
  }

  // ---------------------------------------------------------------- other steps

  /** A caller that has to wait is the last one in the chain of the entry it is told. */
  lemma WaiterQueues(v: Vol, s: State, addr: nat, dev: nat -> nat, tokenOk: bool)
    requires Good(v, s)
    ensures var (s1, r) := Aread(v, s, addr, dev, tokenOk);
      r.Wait? ==> r.id < |s.entries| == |s1.entries| && s1.entries[r.id].chain == s.entries[r.id].chain + [|s.want|]
  {
    hide Obtain, ReadAhead, EntryOk, Unique;
    if v.mounted && 0 < addr <= v.volsize {
      ObtainInv(v, s, addr, dev, |s.entries|);
      ObtainUsers(v, s, addr, dev, |s.entries|);
      var (s1, got) := Obtain(v, s, addr, dev);
      if got.Some? {
        RefInv(v, s1, got.value);
        var s2 := Ref(v, s1, got.value);
        ReadAheadInv(v, s2, addr, 1, dev, got.value);
        ReadAheadUsers(v, s2, addr, 1, dev, got.value);
      }
    }
  }

  /** A blank buffer is referenced once, has no chunk and is in no list; none can be had exactly if no
      buffer is free or idle. */
  lemma BlankMeans(v: Vol, s: State)
    requires Good(v, s)
    ensures var (s1, r) := Eblank(v, s);
      && (r.None? <==> !v.mounted || NoBuffer(s)) && (r.None? ==> s1 == s)
      && (r.Some? ==>
            var e := s1.entries[r.value];
            && e.refcount == 1 && e.addr == 0 && e.t.None? && e.chain == [] && e.invalid
            && r.value !in s1.free && r.value !in s1.alist && Unlinked(s1, r.value) && Others(s, s1, r.value))
  {
    TakeExact(v, s);
    EblankInv(v, s);
    var (s1, r) := Eblank(v, s);
    hide Take, Unique, TokensOk, Linked;
    if r.Some? { assert EntryOk(v, s1, r.value, |s.entries|); BlankNotFree(v, s); }
  }

  lemma BlankNotFree(v: Vol, s: State)
    requires Good(v, s)
    ensures var (s1, r) := Eblank(v, s); r.Some? ==> r.value !in s1.free && Others(s, s1, r.value)
  {
    if s.free != [] {
      assert s.free[0] in s.free;
    } else if FirstIdle(s.entries, s.alist).Some? {
      assert EntryOk(v, s, FirstIdle(s.entries, s.alist).value, |s.entries|);
    }
  }

  /** A round of the flush gives the buffer of the first available entry back to the pool, and leaves
      all others alone. */
  lemma FlushMeans(v: Vol, s: State, ok: bool, junk: Chunk)
    requires Good(v, s) && s.alist != []
    ensures var s1 := Next(v, s, DoFlush(ok, junk)); Others(s, s1, s.alist[0]) && GivenBack(s, s1, s.alist[0])
  {
    var i := s.alist[0];
    var e := s.entries[i];
    assert i in s.alist;
    if e.t.None? {
      Discarded(v, s, i, e);
      assert s.entries[i := e] == s.entries;
    } else {
      var data := if ok then v.disk(e.t.value.target) else junk;
      Discarded(v, s, i, e.(t := None, invalid := !ok, buffer := data));
    }
  }

  /** Chunks are spread over the collision lists by the last bits of their address. */
  lemma HashIs(addr: nat, k: nat)
    requires Bits.Pow2(k) <= 0x1_0000_0000
    ensures HtIndex(Bits.Pow2(k), addr) == addr % 0x1_0000_0000 % Bits.Pow2(k)
  {
    Bits.AndMask(addr % 0x1_0000_0000, k);
  }

  // ---------------------------------------------------------------- where events come from

  /** A waiter is told success or failure by the completion of the request it waits for, which ended
      so, and gives up only by its own doing. */
  ghost predicate Caused(s: State, step: Step, e: Event) {
    match e
    case Notified(x, ok, _) =>
      step.DoComplete? && step.ok == ok && step.id < |s.entries| && x in s.entries[step.id].chain
    case Aborted(x) => step.DoAbort? && step.token == Some(x)
  }

  /** Every step only adds to the log, and what it adds it has caused. */
  lemma StepEvents(v: Vol, s: State, step: Step)
    requires Good(v, s) && Enabled(s, step)
    ensures var s1 := Meant(v, s, step);
      && |s.log| <= |s1.log| && s1.log[..|s.log|] == s.log
      && forall k :: |s.log| <= k < |s1.log| ==> Caused(s, step, s1.log[k])
  {
    hide Aread, Complete, ReleaseMeant, AbortMeant, Eblank, FlushHead, LetGo, GivenUp, EntryOk, Unique;
    match step
    case DoAread(addr, dev, tokenOk) => AreadLog(v, s, addr, dev, tokenOk);
    case DoEblank => EblankInv(v, s);
    case DoRelease(i) => ReleaseMeans(v, s, i); LetGoLog(s, Meant(v, s, step), i);
    case DoAbort(i, token) =>
      var mid := AbortMeans(v, s, i, token);
      LetGoLog(mid, Meant(v, s, step), i);
      GivenUpLog(s, mid, i, token);
    case DoComplete(i, ok, junk) =>
      CompletionMeans(v, s, i, ok, junk);
      ToldCaused(v, s, Meant(v, s, step), i, ok, junk);
    case DoFill(i, data) =>
    case DoFlush(ok, junk) => FlushHeadInv(v, s, ok, junk);
  }

  lemma ToldCaused(v: Vol, s: State, s1: State, i: nat, ok: bool, junk: Chunk)
    requires i < |s.entries| && Told(s.log, s1.log, s.entries[i].chain, ok, v.disk(s.entries[i].addr))
    ensures forall k :: |s.log| <= k < |s1.log| ==> Caused(s, DoComplete(i, ok, junk), s1.log[k])
  {
    forall k | |s.log| <= k < |s1.log| ensures Caused(s, DoComplete(i, ok, junk), s1.log[k]) {
      var j := k - |s.log|;
      assert s1.log[|s.log| + j].token == s.entries[i].chain[j];
    }
  }

  lemma LetGoLog(s: State, s1: State, i: nat)
    requires i < |s.entries| && LetGo(s, s1, i)
    ensures s1.log == s.log
  {}

  lemma GivenUpLog(s: State, s1: State, i: nat, token: Option<nat>)
    requires i < |s.entries| == |s1.entries| && GivenUp(s, s1, i, token)
    ensures s1.log == s.log || (token.Some? && s1.log == s.log + [Aborted(token.value)])
  {}

  lemma AreadLog(v: Vol, s: State, addr: nat, dev: nat -> nat, tokenOk: bool)
    requires Good(v, s)
    ensures Aread(v, s, addr, dev, tokenOk).0.log == s.log
  {
    hide Obtain, ReadAhead, EntryOk, Unique;
    if v.mounted && 0 < addr <= v.volsize {
      ObtainInv(v, s, addr, dev, |s.entries|);
      ObtainUsers(v, s, addr, dev, |s.entries|);
      var (s1, got) := Obtain(v, s, addr, dev);
      if got.Some? {
        RefInv(v, s1, got.value);
        var s2 := Ref(v, s1, got.value);
        ReadAheadInv(v, s2, addr, 1, dev, got.value);
        ReadAheadUsers(v, s2, addr, 1, dev, got.value);
      }
    }
  }

  /** In every run, each event of the log was caused by the step that added it. */
  lemma {:induction false} RunEvents(v: Vol, states: seq<State>, steps: seq<Step>, n: nat, p: nat) returns (k: nat)
    requires Run(v, states, steps) && Initial(v, states[0]) && n < |states| && p < |states[n].log|
    ensures k < n && |states[k].log| <= p < |states[k + 1].log|
    ensures Caused(states[k], steps[k], states[n].log[p])
  {
    hide Caused, Meant, Enabled;
    InitialGood(v, states[0]);
    if n == 0 {
      assert false;
    } else {
      RunKeeps(v, states, steps, n - 1);
      assert Leads(v, states[n - 1], steps[n - 1], states[n]);
      StepEvents(v, states[n - 1], steps[n - 1]);
      if p < |states[n - 1].log| {
        k := RunEvents(v, states, steps, n - 1, p);
        assert states[n].log[p] == states[n].log[..|states[n - 1].log|][p];
      } else {
        k := n - 1;
      }
    }
  }
}
