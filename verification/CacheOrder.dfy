/** In which order the chunk cache gives up chunks: a buffer is reused only if the pool is empty,
    and then it is the one, among those with no request in flight, that has been available and
    unused for longest. */
module CacheOrder {
  import opened Types
  import opened Seqs
  import opened CacheSpec
  import opened CacheInv
  import opened CacheRuns
  import opened CacheMeans

  // ---------------------------------------------------------------- queues

  ghost predicate Ahead(l: seq<nat>, x: nat, y: nat) {
    exists p, q :: 0 <= p < q < |l| && l[p] == x && l[q] == y
  }

  /** From `l` to `l1` the elements `n` were queued at the end, others only taken out. */
  ghost predicate Requeued(l: seq<nat>, l1: seq<nat>, n: set<nat>) {
    && (forall y :: y in l1 ==> y in l || y in n)
    && forall x, y :: x in l1 && y in l1 && x !in n && (y in n || Ahead(l, x, y)) ==> Ahead(l1, x, y)
  }

  lemma RequeuedSame(l: seq<nat>)
    ensures Requeued(l, l, {})
  {}

  lemma RequeuedAppend(l: seq<nat>, i: nat)
    ensures Requeued(l, l + [i], {i})
  {
    var l1 := l + [i];
    forall x, y | x in l1 && y in l1 && x !in {i} && (y in {i} || Ahead(l, x, y))
      ensures Ahead(l1, x, y)
    {
      if y == i {
        var p :| 0 <= p < |l1| && l1[p] == x;
        assert l1[|l|] == y;
      } else {
        var p, q :| 0 <= p < q < |l| && l[p] == x && l[q] == y;
        assert l1[p] == x && l1[q] == y;
      }
    }
  }

  lemma RemoveLast(l: seq<nat>, i: nat)
    requires l != []
    ensures var n := |l| - 1; Remove(l, i) == Remove(l[..n], i) + if l[n] == i then [] else [l[n]]
  {}

  lemma AheadLonger(l: seq<nat>, m: seq<nat>, x: nat, y: nat)
    requires Ahead(l, x, y)
    ensures Ahead(l + m, x, y)
  {
    var p, q :| 0 <= p < q < |l| && l[p] == x && l[q] == y;
    assert (l + m)[p] == x && (l + m)[q] == y;
  }

  lemma {:induction false} RemoveAhead(l: seq<nat>, i: nat, x: nat, y: nat)
    requires Ahead(l, x, y) && x != i && y != i
    ensures Ahead(Remove(l, i), x, y)
  {
    hide Remove;
    var n := |l| - 1;
    var p, q :| 0 <= p < q < |l| && l[p] == x && l[q] == y;
    var d := l[..n];
    RemoveLast(l, i);
    if q < n {
      assert d[p] == x && d[q] == y;
      RemoveAhead(d, i, x, y);
      AheadLonger(Remove(d, i), if l[n] == i then [] else [l[n]], x, y);
    } else {
      assert d[p] == x;
      AheadAppended(Remove(d, i), x, y);
    }
  }

  lemma AheadAppended(l: seq<nat>, x: nat, y: nat)
    requires x in l
    ensures Ahead(l + [y], x, y)
  {
    var p :| 0 <= p < |l| && l[p] == x;
    assert (l + [y])[p] == x && (l + [y])[|l|] == y;
  }

  lemma RequeuedRemove(l: seq<nat>, i: nat)
    ensures Requeued(l, Remove(l, i), {})
  {
    forall x, y | x in Remove(l, i) && y in Remove(l, i) && Ahead(l, x, y)
      ensures Ahead(Remove(l, i), x, y)
    {
      RemoveAhead(l, i, x, y);
    }
  }

  lemma RequeuedTransitive(l: seq<nat>, l1: seq<nat>, l2: seq<nat>, n: set<nat>, m: set<nat>)
    requires Requeued(l, l1, n) && Requeued(l1, l2, m)
    ensures Requeued(l, l2, n + m)
  {
    forall x, y | x in l2 && y in l2 && x !in n + m && (y in n + m || Ahead(l, x, y))
      ensures Ahead(l2, x, y)
    {
      if y !in m { assert Ahead(l1, x, y); }
    }
  }

  // ---------------------------------------------------------------- which buffer is taken

  /** The first of the list that is idle, if there is one: all before it are in flight. */
  lemma {:induction false} FirstIdleIs(es: seq<Entry>, l: seq<nat>) returns (p: nat)
    requires InRange(es, l)
    ensures p <= |l| && forall k :: 0 <= k < p ==> es[l[k]].t.Some?
    ensures FirstIdle(es, l) == if p < |l| then Some(l[p]) else None
    ensures p < |l| ==> es[l[p]].t.None?
  {
    if l == [] || es[l[0]].t.None? {
      p := 0;
    } else {
      p := FirstIdleIs(es, l[1..]);
      p := p + 1;
    }
  }

  /** A buffer comes from the pool; only if that is empty, it is the first available one that is
      idle. */
  lemma TakeMeans(v: Vol, s: State) returns (p: nat)
    requires Ranged(v, s)
    ensures s.free != [] ==> Take(v, s).1 == Some(s.free[0])
    ensures s.free == [] ==>
      && p <= |s.alist| && (forall k :: 0 <= k < p ==> s.entries[s.alist[k]].t.Some?)
      && Take(v, s).1 == (if p < |s.alist| then Some(s.alist[p]) else None)
      && (p < |s.alist| ==> s.entries[s.alist[p]].t.None?)
  {
    p := FirstIdleIs(s.entries, s.alist);
  }

  /** An idle entry that is ahead of another one is taken before it. */
  lemma AheadFirst(v: Vol, s: State, x: nat, y: nat)
    requires Ranged(v, s) && s.free == [] && NoDup(s.alist) && Ahead(s.alist, x, y)
    requires x < |s.entries| && s.entries[x].t.None?
    ensures Take(v, s).1.Some? && Take(v, s).1 != Some(y)
  {
    var p, q :| 0 <= p < q < |s.alist| && s.alist[p] == x && s.alist[q] == y;
    var f := TakeMeans(v, s);
  }

  // ---------------------------------------------------------------- what a step queues

  /** What getting a chunk does to the queue and to the entries. */
  lemma ObtainQueue(v: Vol, s: State, addr: nat, dev: nat -> nat, h: nat) returns (n: set<nat>)
    requires Held(v, s, h) && 0 < addr
    ensures var (s1, got) := Obtain(v, s, addr, dev);
      && Requeued(s.alist, s1.alist, n) && |s1.entries| == |s.entries|
      && (n == {} || (got.Some? && n == {got.value}))
      && (forall i :: i in n ==>
            i < |s.entries| && s1.entries[i].t.Some? && s1.entries[i].addr == addr
            && (i in s.alist ==> s.entries[i].addr != addr))
      && (forall j :: 0 <= j < |s.entries| && s.entries[j].t.Some? && j !in s.free ==> s1.entries[j] == s.entries[j])
      && (got.Some? ==> forall j :: 0 <= j < |s.entries| && j !in n ==>
            s1.entries[j] == s.entries[j] && (j in s1.alist <==> j in s.alist))
  {
    FindExact(v, s, addr, h);
    n := {};
    if Find(v, s, addr).Some? {
      RequeuedSame(s.alist);
    } else {
      hide Find;
      var (s1, got) := Take(v, s);
      TakeQueue(v, s, h);
      if got.Some? {
        if dev(addr) == 0 {
          n := {got.value};
          RequeuedAppend(s1.alist, got.value);
          RequeuedTransitive(s.alist, s1.alist, s1.alist + [got.value], {}, n);
        }
      }
    }
  }

  lemma TakeQueue(v: Vol, s: State, h: nat)
    requires Held(v, s, h)
    ensures var (s1, got) := Take(v, s);
      && Requeued(s.alist, s1.alist, {})
      && (forall j :: 0 <= j < |s.entries| && Some(j) != got ==>
            s1.entries[j] == s.entries[j] && (j in s1.alist <==> j in s.alist))
      && (got.Some? ==> got.value !in s1.alist && (s.entries[got.value].t.None? || got.value in s.free))
  {
    if s.free != [] {
      assert s.free[0] in s.free;
      assert EntryOk(v, s, s.free[0], h);
      RequeuedSame(s.alist);
    } else {
      var got := FirstIdle(s.entries, s.alist);
      if got.Some? { RequeuedRemove(s.alist, got.value); } else { RequeuedSame(s.alist); }
    }
  }

  /** Entry `y` was not available before, or has got another chunk. */
  ghost predicate Fresh(s: State, s1: State, y: nat) {
    y !in s.alist || (y < |s.entries| == |s1.entries| && s1.entries[y].addr != s.entries[y].addr)
  }

  /** Read-ahead queues only what is fresh, and leaves requests in flight alone. */
  lemma {:induction false} ReadAheadQueue(v: Vol, s: State, addr: nat, i: nat, dev: nat -> nat, h: nat)
      returns (n: set<nat>)
    requires Held(v, s, h) && h < |s.entries| && 0 < i
    ensures var s1 := ReadAhead(v, s, addr, i, dev);
      && Requeued(s.alist, s1.alist, n)
      && (forall y :: y in n ==> Fresh(s, s1, y))
      && (forall j :: 0 <= j < |s.entries| && s.entries[j].t.Some? && j !in s.free ==> s1.entries[j] == s.entries[j])
    decreases READAHEAD + 1 - i
  {
    hide Obtain, Requeued, EntryOk, Unique, Lists, Counts;
    if READAHEAD < i || v.volsize <= addr + i {
      n := {};
      RequeuedSame(s.alist);
    } else {
      n := ObtainQueue(v, s, addr + i, dev, h);
      ObtainInv(v, s, addr + i, dev, h);
      var (s1, got) := Obtain(v, s, addr + i, dev);
      if got.Some? {
        var m := ReadAheadQueue(v, s1, addr, i + 1, dev, h);
        var s2 := ReadAhead(v, s1, addr, i + 1, dev);
        RequeuedTransitive(s.alist, s1.alist, s2.alist, n, m);
        StillInFlight(v, s, s1, n, h);
        n := n + m;
      }
    }
  }

  lemma StillInFlight(v: Vol, s: State, s1: State, n: set<nat>, h: nat)
    requires Held(v, s, h) && Held(v, s1, h) && |s1.entries| == |s.entries|
    requires forall i :: i in n ==> i < |s.entries| && s1.entries[i].t.Some?
    requires forall j :: 0 <= j < |s.entries| && s.entries[j].t.Some? && j !in s.free ==> s1.entries[j] == s.entries[j]
    ensures forall i :: i in n ==> i !in s1.free
    ensures forall j :: 0 <= j < |s.entries| && s.entries[j].t.Some? && j !in s.free ==> j !in s1.free
  {
    forall j | 0 <= j < |s.entries| && s1.entries[j].t.Some? ensures j !in s1.free {
      assert EntryOk(v, s1, j, h);
    }
  }

  lemma RefQueue(v: Vol, s: State, i: nat)
    requires Ranged(v, s) && i < |s.entries| && (s.entries[i].refcount == 0 ==> i in s.alist)
    ensures var s1 := Ref(v, s, i);
      && Requeued(s.alist, s1.alist, {})
      && (forall j :: 0 <= j < |s.entries| && j != i ==>
            s1.entries[j] == s.entries[j] && (j in s1.alist <==> j in s.alist))
      && s1.entries[i].addr == s.entries[i].addr
  {
    if s.entries[i].refcount == 0 { RequeuedRemove(s.alist, i); } else { RequeuedSame(s.alist); }
  }

  lemma AnswerQueue(v: Vol, s: State, i: nat, addr: nat, tokenOk: bool) returns (n: set<nat>)
    requires Ranged(v, s) && i < |s.entries|
    ensures var s1 := Answer(v, s, i, addr, tokenOk).0;
      && |s1.entries| == |s.entries| && Requeued(s.alist, s1.alist, n) && n <= {i}
      && s1.entries[i].addr == s.entries[i].addr
      && (forall j :: 0 <= j < |s.entries| && j != i ==> s1.entries[j] == s.entries[j])
  {
    if Answer(v, s, i, addr, tokenOk).0.alist == s.alist {
      n := {};
      RequeuedSame(s.alist);
    } else {
      n := {i};
      RequeuedAppend(s.alist, i);
    }
  }

  /** Entry `y` has become available in this step, or was used by it: its chunk was asked for. */
  ghost predicate Entered(s: State, step: Step, s1: State, y: nat) {
    Fresh(s, s1, y) || (step.DoAread? && y < |s.entries| && s.entries[y].addr == step.addr)
  }

  lemma AreadQueue(v: Vol, s: State, addr: nat, dev: nat -> nat, tokenOk: bool) returns (n: set<nat>)
    requires Good(v, s)
    ensures var s1 := Aread(v, s, addr, dev, tokenOk).0;
      && Requeued(s.alist, s1.alist, n)
      && forall y :: y in n ==> Entered(s, DoAread(addr, dev, tokenOk), s1, y)
  {
    hide Obtain, Ref, ReadAhead, Answer, Requeued, EntryOk, Unique, Lists, Counts;
    n := {};
    RequeuedSame(s.alist);
    if v.mounted && 0 < addr <= v.volsize {
      var none := |s.entries|;
      var n1 := ObtainQueue(v, s, addr, dev, none);
      n := n1;
      ObtainInv(v, s, addr, dev, none);
      var (s1, got) := Obtain(v, s, addr, dev);
      if got.Some? {
        var i := got.value;
        Referenced(v, s1, i);
        RefInv(v, s1, i);
        RefQueue(v, s1, i);
        var s2 := Ref(v, s1, i);
        ReadAheadInv(v, s2, addr, 1, dev, i);
        var n3 := ReadAheadQueue(v, s2, addr, 1, dev, i);
        var s3 := ReadAhead(v, s2, addr, 1, dev);
        var n4 := AnswerQueue(v, s3, i, addr, tokenOk);
        var s4 := Answer(v, s3, i, addr, tokenOk).0;
        RequeuedTransitive(s.alist, s1.alist, s2.alist, n1, {});
        RequeuedTransitive(s.alist, s2.alist, s3.alist, n1 + {}, n3);
        RequeuedTransitive(s.alist, s3.alist, s4.alist, n1 + {} + n3, n4);
        n := n1 + {} + n3 + n4;
      }
    }
  }

  lemma Referenced(v: Vol, s: State, i: nat)
    requires Inv(v, s) && i < |s.entries| && i !in s.free && s.entries[i].addr != 0
    ensures s.entries[i].refcount == 0 ==> i in s.alist
  {
    assert EntryOk(v, s, i, |s.entries|);
  }

  lemma DiscardQueue(v: Vol, s: State, i: nat)
    requires Ranged(v, s) && i < |s.entries| && i in s.alist
    ensures Requeued(s.alist, Discard(v, s, i).alist, {})
  {
    RequeuedRemove(s.alist, i);
  }

  lemma LetGoQueue(v: Vol, s: State, s1: State, i: nat) returns (n: set<nat>)
    requires i < |s.entries| && LetGo(s, s1, i) && i !in s.alist
    ensures Requeued(s.alist, s1.alist, n) && forall y :: y in n ==> Fresh(s, s1, y)
  {
    if s1.alist == s.alist {
      n := {};
      RequeuedSame(s.alist);
    } else {
      n := {i};
      RequeuedAppend(s.alist, i);
    }
  }

  lemma NotAvailable(v: Vol, s: State, i: nat)
    requires Good(v, s) && i < |s.entries|
    ensures Ranged(v, s)
    ensures 0 < s.entries[i].refcount ==> i !in s.alist
    ensures s.entries[i].t.Some? && s.entries[i].refcount == 0 ==> i in s.alist
  {
    assert EntryOk(v, s, i, |s.entries|);
  }

  /** Every step queues at the end what has just become available, and leaves the order of the
      others as it was. */
  lemma StepQueue(v: Vol, s: State, step: Step) returns (n: set<nat>)
    requires Good(v, s) && Enabled(s, step)
    ensures var s1 := Meant(v, s, step);
      && Requeued(s.alist, s1.alist, n)
      && forall y :: y in n ==> Entered(s, step, s1, y)
  {
    hide Aread, ReleaseMeant, AbortMeant, Requeued, LetGo, EntryOk, Unique, Good, Discard, Take;
    n := {};
    RequeuedSame(s.alist);
    match step
    case DoAread(addr, dev, tokenOk) => n := AreadQueue(v, s, addr, dev, tokenOk);
    case DoEblank => BlankQueue(v, s);
    case DoRelease(i) =>
      NotAvailable(v, s, i);
      ReleaseMeans(v, s, i);
      n := LetGoQueue(v, s, Meant(v, s, step), i);
    case DoAbort(i, token) =>
      NotAvailable(v, s, i);
      n := AbortQueue(v, s, i, token);
    case DoComplete(i, ok, junk) =>
      NotAvailable(v, s, i);
      CompleteQueue(v, s, i, ok, junk);
    case DoFill(i, data) =>
    case DoFlush(ok, junk) => FlushQueue(v, s, ok, junk);
  }

  lemma AbortQueue(v: Vol, s: State, i: nat, token: Option<nat>) returns (n: set<nat>)
    requires Good(v, s) && Enabled(s, DoAbort(i, token)) && i !in s.alist
    ensures var s1 := Meant(v, s, DoAbort(i, token));
      Requeued(s.alist, s1.alist, n) && forall y :: y in n ==> Fresh(s, s1, y)
  {
    hide AbortMeant, Requeued, LetGo, EntryOk, Unique;
    var mid := AbortMeans(v, s, i, token);
    n := LetGoQueue(v, mid, Meant(v, s, DoAbort(i, token)), i);
  }

  lemma BlankQueue(v: Vol, s: State)
    requires Good(v, s)
    ensures Requeued(s.alist, Eblank(v, s).0.alist, {})
  {
    hide Requeued, Take, EntryOk, Unique;
    RequeuedSame(s.alist);
    TakeQueue(v, s, |s.entries|);
  }

  lemma CompleteQueue(v: Vol, s: State, i: nat, ok: bool, junk: Chunk)
    requires Ranged(v, s) && i < |s.entries| && s.entries[i].t.Some?
    requires s.entries[i].refcount == 0 ==> i in s.alist
    ensures Requeued(s.alist, Complete(v, s, i, ok, junk).alist, {})
  {
    hide Requeued;
    RequeuedSame(s.alist);
    RequeuedRemove(s.alist, i);
  }

  lemma FlushQueue(v: Vol, s: State, ok: bool, junk: Chunk)
    requires Good(v, s) && s.alist != []
    ensures Requeued(s.alist, FlushHead(v, s, ok, junk).alist, {})
  {
    hide Requeued, EntryOk, Unique;
    assert s.alist[0] in s.alist;
    RequeuedRemove(s.alist, s.alist[0]);
  }

  // ---------------------------------------------------------------- runs

  /** From state `a` to state `b` entry `x` is available and not used. */
  ghost predicate Unused(states: seq<State>, steps: seq<Step>, a: nat, b: nat, x: nat)
    requires b < |states| == |steps| + 1
  {
    && (forall m :: a <= m <= b ==> x in states[m].alist)
    && forall m :: a <= m < b ==> !Entered(states[m], steps[m], states[m + 1], x)
  }

  /** What became available later is behind what has been available and unused since before. */
  lemma {:induction false} RunQueue(v: Vol, states: seq<State>, steps: seq<Step>, a: nat, b: nat, x: nat, y: nat)
    requires Run(v, states, steps) && Good(v, states[0]) && a <= b < |states|
    requires Unused(states, steps, a, b, x) && y !in states[a].alist && y in states[b].alist
    ensures Ahead(states[b].alist, x, y)
    decreases b - a
  {
    hide Leads, Good, Requeued, Entered, Ahead;
    assert a < b;
    RunKeeps(v, states, steps, b - 1);
    assert Leads(v, states[b - 1], steps[b - 1], states[b]);
    if y in states[b - 1].alist { RunQueue(v, states, steps, a, b - 1, x, y); }
    OneStep(v, states[b - 1], steps[b - 1], states[b], x, y);
  }

  lemma OneStep(v: Vol, s: State, step: Step, s1: State, x: nat, y: nat)
    requires Good(v, s) && Leads(v, s, step, s1) && x in s1.alist && y in s1.alist && !Entered(s, step, s1, x)
    requires y in s.alist ==> Ahead(s.alist, x, y)
    ensures Ahead(s1.alist, x, y)
  {
    hide Good, Entered, Ahead, Meant;
    var n := StepQueue(v, s, step);
  }

  /** The buffer that is reused has not become available after an idle one that has been unused
      since. */
  lemma OldestFirst(v: Vol, states: seq<State>, steps: seq<Step>, a: nat, b: nat, x: nat, y: nat)
    requires Run(v, states, steps) && Good(v, states[0]) && a <= b < |states|
    requires Unused(states, steps, a, b, x) && y !in states[a].alist
    requires states[b].free == [] && x < |states[b].entries| && states[b].entries[x].t.None?
    ensures Ranged(v, states[b])
    ensures Take(v, states[b]).1.Some? && Take(v, states[b]).1 != Some(y)
  {
    hide Take, Leads, Requeued, Entered, Ahead;
    RunKeeps(v, states, steps, b);
    if y in states[b].alist {
      RunQueue(v, states, steps, a, b, x, y);
      AheadFirst(v, states[b], x, y);
    } else {
      var p := TakeMeans(v, states[b]);
      var q :| 0 <= q < |states[b].alist| && states[b].alist[q] == x;
    }
  }
}
