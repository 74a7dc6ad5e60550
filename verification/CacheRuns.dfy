/** Whole runs of the chunk cache: every waiter is served once, and what holds in every
    reachable state. */
module CacheRuns {
  import opened Types
  import opened Seqs
  import opened CacheSpec
  import opened CacheInv

  // ---------------------------------------------------------------- waiter tokens

  /** How often token `x` is in a chain. */
  ghost function Occ(chain: seq<nat>, x: nat): nat {
    if chain == [] then 0
    else Occ(chain[..|chain| - 1], x) + (if chain[|chain| - 1] == x then 1 else 0)
  }

  /** How often token `x` waits in the chains of the entries. */
  ghost function Waits(es: seq<Entry>, x: nat): nat {
    if es == [] then 0
    else Waits(es[..|es| - 1], x) + Occ(es[|es| - 1].chain, x)
  }

  /** How often token `x` was served or aborted. */
  ghost function Ends(log: seq<Event>, x: nat): nat {
    if log == [] then 0
    else Ends(log[..|log| - 1], x) + (if log[|log| - 1].token == x then 1 else 0)
  }

  /** Every token handed out either waits in one place or has ended once. */
  ghost predicate Conserved(s: State) {
    forall x: nat :: Waits(s.entries, x) + Ends(s.log, x) == if x < |s.want| then 1 else 0
  }

  /** The tokens in a chain were handed out for chunk `addr`. */
  ghost predicate WaitFor(want: seq<nat>, chain: seq<nat>, addr: nat) {
    forall k :: 0 <= k < |chain| ==> chain[k] < |want| && want[chain[k]] == addr
  }

  /** A callback that reports success sees the chunk its token was handed out for. */
  ghost predicate Truthful(v: Vol, want: seq<nat>, e: Event) {
    && e.token < |want|
    && (e.Notified? && e.ok ==> e.data == v.disk(want[e.token]))
  }

  ghost predicate TokensOk(v: Vol, s: State) {
    && Conserved(s)
    && (forall i :: 0 <= i < |s.entries| ==> WaitFor(s.want, s.entries[i].chain, s.entries[i].addr))
    && (forall k :: 0 <= k < |s.log| ==> Truthful(v, s.want, s.log[k]))
  }

  lemma {:induction false} OccIn(c: seq<nat>, x: nat)
    ensures x in c <==> 0 < Occ(c, x)
  {
    if c != [] {
      OccIn(c[..|c| - 1], x);
      assert c == c[..|c| - 1] + [c[|c| - 1]];
    }
  }

  lemma OccAppend(c: seq<nat>, y: nat, x: nat)
    ensures Occ(c + [y], x) == Occ(c, x) + (if y == x then 1 else 0)
  {
    assert (c + [y])[..|c|] == c;
  }

  lemma {:induction false} OccRemove(c: seq<nat>, y: nat, x: nat)
    ensures Occ(Remove(c, y), x) == if x == y then 0 else Occ(c, x)
  {
    if c != [] {
      var d := c[..|c| - 1];
      OccRemove(d, y, x);
      OccAppend(Remove(d, y), c[|c| - 1], x);
    }
  }

  lemma {:induction false} OccTwice(c: seq<nat>, a: nat, b: nat)
    requires a < b < |c| && c[a] == c[b]
    ensures 2 <= Occ(c, c[a])
  {
    var d := c[..|c| - 1];
    if b == |c| - 1 {
      assert d[a] in d;
      OccIn(d, c[a]);
    } else {
      OccTwice(d, a, b);
    }
  }

  lemma {:induction false} WaitsUpdate(es: seq<Entry>, i: nat, e: Entry, x: nat)
    requires i < |es|
    ensures Occ(es[i].chain, x) <= Waits(es, x)
    ensures Waits(es[i := e], x) == Waits(es, x) - Occ(es[i].chain, x) + Occ(e.chain, x)
  {
    var n := |es| - 1;
    if i < n {
      WaitsUpdate(es[..n], i, e, x);
      assert es[i := e][..n] == es[..n][i := e];
    } else {
      assert es[i := e][..n] == es[..n];
    }
  }

  lemma {:induction false} WaitsSame(es: seq<Entry>, fs: seq<Entry>, x: nat)
    requires |es| == |fs| && forall i :: 0 <= i < |es| ==> es[i].chain == fs[i].chain
    ensures Waits(es, x) == Waits(fs, x)
  {
    if es != [] { WaitsSame(es[..|es| - 1], fs[..|fs| - 1], x); }
  }

  lemma EndsAppend(log: seq<Event>, e: Event, x: nat)
    ensures Ends(log + [e], x) == Ends(log, x) + (if e.token == x then 1 else 0)
  {
    assert (log + [e])[..|log|] == log;
  }

  lemma {:induction false} EndsNotices(log: seq<Event>, chain: seq<nat>, ok: bool, data: Chunk, x: nat)
    ensures Ends(log + Notices(chain, ok, data), x) == Ends(log, x) + Occ(chain, x)
  {
    if chain == [] {
      assert log + Notices(chain, ok, data) == log;
    } else {
      var n := |chain| - 1;
      var c := chain[..n];
      var e := Notified(chain[n], ok, data);
      EndsNotices(log, c, ok, data, x);
      assert log + Notices(chain, ok, data) == log + Notices(c, ok, data) + [e];
      EndsAppend(log + Notices(c, ok, data), e, x);
    }
  }

  /** No token is twice in a chain. */
  lemma ChainDistinct(s: State, i: nat)
    requires Conserved(s) && i < |s.entries|
    ensures NoDup(s.entries[i].chain)
  {
    var c := s.entries[i].chain;
    forall a, b | 0 <= a < b < |c|
      ensures c[a] != c[b]
    {
      WaitsUpdate(s.entries, i, s.entries[i], c[a]);
      if c[a] == c[b] { OccTwice(c, a, b); }
    }
  }

  lemma SameTokens(v: Vol, s: State, s1: State)
    requires TokensOk(v, s) && SameWaiters(s, s1)
    ensures TokensOk(v, s1)
  {
    forall x: nat
      ensures Waits(s1.entries, x) + Ends(s1.log, x) == if x < |s1.want| then 1 else 0
    {
      WaitsSame(s.entries, s1.entries, x);
    }
    forall i | 0 <= i < |s1.entries|
      ensures WaitFor(s1.want, s1.entries[i].chain, s1.entries[i].addr)
    {
      assert WaitFor(s.want, s.entries[i].chain, s.entries[i].addr);
    }
  }

  /** One token more is handed out, to a waiter in chain `i`. */
  lemma WaitTokens(v: Vol, s: State, s1: State, i: nat)
    requires TokensOk(v, s) && i < |s.entries|
    requires var e := s.entries[i];
      s1.entries == s.entries[i := e.(chain := e.chain + [|s.want|])]
      && s1.want == s.want + [e.addr] && s1.log == s.log
    ensures TokensOk(v, s1)
  {
    var c := s.entries[i].chain;
    forall x: nat
      ensures Waits(s1.entries, x) + Ends(s1.log, x) == if x < |s1.want| then 1 else 0
    {
      WaitsUpdate(s.entries, i, s1.entries[i], x);
      OccAppend(c, |s.want|, x);
    }
    forall j | 0 <= j < |s1.entries|
      ensures WaitFor(s1.want, s1.entries[j].chain, s1.entries[j].addr)
    {
      assert WaitFor(s.want, s.entries[j].chain, s.entries[j].addr);
    }
    forall k | 0 <= k < |s1.log|
      ensures Truthful(v, s1.want, s1.log[k])
    {
      assert Truthful(v, s.want, s.log[k]);
    }
  }

  lemma CancelConserved(s: State, i: nat, token: nat)
    requires Conserved(s) && i < |s.entries| && token in s.entries[i].chain
    ensures Conserved(Cancel(s, i, Some(token)))
  {
    var s1 := Cancel(s, i, Some(token));
    var c := s.entries[i].chain;
    OccIn(c, token);
    forall x: nat
      ensures Waits(s1.entries, x) + Ends(s1.log, x) == if x < |s1.want| then 1 else 0
    {
      WaitsUpdate(s.entries, i, s1.entries[i], x);
      OccRemove(c, token, x);
      EndsAppend(s.log, Aborted(token), x);
    }
  }

  lemma CancelTokens(v: Vol, s: State, i: nat, token: Option<nat>)
    requires TokensOk(v, s) && i < |s.entries|
    ensures TokensOk(v, Cancel(s, i, token))
  {
    var s1 := Cancel(s, i, token);
    if token.Some? && token.value in s.entries[i].chain {
      CancelConserved(s, i, token.value);
      assert WaitFor(s.want, s.entries[i].chain, s.entries[i].addr);
      forall j | 0 <= j < |s1.entries|
        ensures WaitFor(s1.want, s1.entries[j].chain, s1.entries[j].addr)
      {
        assert WaitFor(s.want, s.entries[j].chain, s.entries[j].addr);
      }
    }
  }

  lemma NotifyTokens(v: Vol, s: State, i: nat, ok: bool, junk: Chunk)
    requires Ranged(v, s) && TokensOk(v, s) && i < |s.entries|
    requires s.entries[i].t == Some(Io(s.entries[i].addr))
    requires 0 < s.entries[i].refcount || ok
    ensures TokensOk(v, Complete(v, s, i, ok, junk))
  {
    var e := s.entries[i];
    var data := if ok then v.disk(e.addr) else junk;
    var s1 := Complete(v, s, i, ok, junk);
    forall x: nat
      ensures Waits(s1.entries, x) + Ends(s1.log, x) == if x < |s1.want| then 1 else 0
    {
      WaitsUpdate(s.entries, i, s1.entries[i], x);
      EndsNotices(s.log, e.chain, ok, data, x);
    }
    forall j | 0 <= j < |s1.entries|
      ensures WaitFor(s1.want, s1.entries[j].chain, s1.entries[j].addr)
    {
      assert WaitFor(s.want, s.entries[j].chain, s.entries[j].addr);
    }
    forall k | 0 <= k < |s1.log|
      ensures Truthful(v, s1.want, s1.log[k])
    {
      if k < |s.log| {
        assert Truthful(v, s.want, s.log[k]);
      } else {
        assert WaitFor(s.want, e.chain, e.addr);
        assert s1.log[k] == Notified(e.chain[k - |s.log|], ok, data);
      }
    }
  }

  // ---------------------------------------------------------------- steps

  datatype Step =
    | DoAread(addr: nat, dev: nat -> nat, tokenOk: bool)
    | DoEblank
    | DoRelease(id: nat)
    | DoAbort(id: nat, token: Option<nat>)
    | DoComplete(id: nat, ok: bool, junk: Chunk)
    | DoFill(id: nat, data: Chunk)
    | DoFlush(ok: bool, junk: Chunk)

  /** What a caller must have to take a step: a reference to the entry it gives back, and
      its token if the entry's request is in flight; a request to complete; a blank buffer
      to fill. */
  ghost predicate Enabled(s: State, step: Step) {
    match step
    case DoAread(_, _, _) => true
    case DoEblank => true
    case DoRelease(i) =>
      i < |s.entries| && i !in s.free && 0 < s.entries[i].refcount && s.entries[i].t.None?
    case DoAbort(i, token) =>
      && i < |s.entries| && i !in s.free && 0 < s.entries[i].refcount
      && (s.entries[i].t.Some? ==> token.Some? && token.value in s.entries[i].chain)
    case DoComplete(i, _, _) => i < |s.entries| && s.entries[i].t.Some?
    case DoFill(i, _) => i < |s.entries| && i !in s.free && s.entries[i].addr == 0
    case DoFlush(_, _) => s.alist != []
  }

  ghost function Next(v: Vol, s: State, step: Step): State
    requires Ranged(v, s) && Enabled(s, step)
  {
    match step
    case DoAread(addr, dev, tokenOk) => Aread(v, s, addr, dev, tokenOk).0
    case DoEblank => Eblank(v, s).0
    case DoRelease(i) => Release(v, s, i)
    case DoAbort(i, token) => Abort(v, s, i, token)
    case DoComplete(i, ok, junk) => Complete(v, s, i, ok, junk)
    case DoFill(i, data) => Fill(s, i, data)
    case DoFlush(ok, junk) => FlushHead(v, s, ok, junk)
  }

  /** All steps but one: giving back the last reference to an entry whose request failed,
      while other entries are available. */
  ghost predicate Safe(s: State, step: Step) {
    (step.DoRelease? || step.DoAbort?) && DropsFailed(s, step.id) ==> s.alist == []
  }

  ghost predicate Good(v: Vol, s: State) {
    Inv(v, s) && TokensOk(v, s)
  }

  /** A request for a chunk keeps the cache consistent, and what it answers is true: on a
      hit the entry has that chunk and is not in flight, otherwise the caller's new token
      waits for it. */
  lemma AreadKeeps(v: Vol, s: State, addr: nat, dev: nat -> nat, tokenOk: bool)
    requires Good(v, s)
    ensures var (s1, r) := Aread(v, s, addr, dev, tokenOk);
      && Good(v, s1) && |s1.entries| == |s.entries|
      && match r
         case Hit(i) =>
           && v.mounted && 0 < addr <= v.volsize
           && i < |s.entries| && i !in s1.free && s1.entries[i].addr == addr
           && s1.entries[i].t.None? && 0 < s1.entries[i].refcount && s1.want == s.want
         case Wait(i, k) =>
           && v.mounted && 0 < addr <= v.volsize
           && i < |s.entries| && i !in s1.free && s1.entries[i].addr == addr
           && s1.entries[i].t.Some? && 0 < s1.entries[i].refcount
           && k == |s.want| && k in s1.entries[i].chain && s1.want == s.want + [addr]
         case Error(errno) => s1.want == s.want
  {
    hide HtIndex, Coherent, Obtain, ReadAhead;
    var none := |s.entries|;
    if v.mounted && 0 < addr <= v.volsize {
      ObtainInv(v, s, addr, dev, none);
      ObtainUsers(v, s, addr, dev, none);
      var (s1, got) := Obtain(v, s, addr, dev);
      SameTokens(v, s, s1);
      if got.Some? {
        var i := got.value;
        RefInv(v, s1, i);
        var s2 := Ref(v, s1, i);
        ReadAheadInv(v, s2, addr, 1, dev, i);
        ReadAheadUsers(v, s2, addr, 1, dev, i);
        var s3 := ReadAhead(v, s2, addr, 1, dev);
        SameTokens(v, s1, s2);
        SameTokens(v, s2, s3);
        AnswerInv(v, s3, i, addr, tokenOk);
        var (s4, r) := Answer(v, s3, i, addr, tokenOk);
        assert EntryOk(v, s3, i, i);
        if r.Wait? {
          assert EntryOk(v, s4, i, none);
          WaitTokens(v, s3, s4, i);
        } else {
          SameTokens(v, s3, s4);
        }
      }
    }
  }

  /** No buffer can be had: the pool is empty and every available entry is in flight. */
  ghost predicate NoBuffer(s: State)
    requires InRange(s.entries, s.alist)
  {
    s.free == [] && forall i :: i in s.alist ==> s.entries[i].t.Some?
  }

  lemma TakeExact(v: Vol, s: State)
    requires Ranged(v, s)
    ensures Take(v, s).1.None? <==> NoBuffer(s)
  {}

  /** When an entry for a chunk can be had, and which one. */
  lemma ObtainExact(v: Vol, s: State, addr: nat, dev: nat -> nat)
    requires Ranged(v, s)
    ensures var (s1, got) := Obtain(v, s, addr, dev);
      match Find(v, s, addr)
      case Some(i) => s1 == s && got == Some(i)
      case None =>
        if NoBuffer(s) then got.None? && AddError(v, s, addr, dev) == EAGAIN
        else if dev(addr) != 0 then got.None? && AddError(v, s, addr, dev) == dev(addr)
        else got.Some? && s1.entries[got.value].t.Some?
  {
    hide Take, NoBuffer, Find;
    TakeExact(v, s);
  }

  /** What the holder of a new reference is told. */
  lemma AnswerExact(v: Vol, s: State, i: nat, addr: nat, dev: nat -> nat, tokenOk: bool)
    requires Inv(v, s) && i < |s.entries| && i !in s.free && s.entries[i].addr != 0
    ensures Answer(v, ReadAhead(v, Ref(v, s, i), addr, 1, dev), i, addr, tokenOk).1 ==
      if s.entries[i].t.None? then Hit(i) else if tokenOk then Wait(i, |s.want|) else Error(EAGAIN)
  {
    hide EntryOk, Lists, Counts, Unique, Obtain;
    RefInv(v, s, i);
    var s2 := Ref(v, s, i);
    assert s2.entries[i].t == s.entries[i].t;
    ReadAheadInv(v, s2, addr, 1, dev, i);
    ReadAheadUsers(v, s2, addr, 1, dev, i);
  }

  /** When a request for a chunk is answered at once, when the caller gets a token, and for
      which reasons it fails. */
  lemma AreadExact(v: Vol, s: State, addr: nat, dev: nat -> nat, tokenOk: bool)
    requires Good(v, s) && v.mounted && 0 < addr <= v.volsize
    ensures var r, found := Aread(v, s, addr, dev, tokenOk).1, Find(v, s, addr);
      match found
      case Some(i) =>
        r == if s.entries[i].t.None? then Hit(i) else if tokenOk then Wait(i, |s.want|) else Error(EAGAIN)
      case None =>
        if NoBuffer(s) then r == Error(EAGAIN)
        else if dev(addr) != 0 then r == Error(dev(addr))
        else if tokenOk then r.Wait? && r.token == |s.want| else r == Error(EAGAIN)
  {
    hide Obtain, AddError, Find, NoBuffer, Answer, ReadAhead, Ref, EntryOk;
    ObtainExact(v, s, addr, dev);
    ObtainInv(v, s, addr, dev, |s.entries|);
    ObtainUsers(v, s, addr, dev, |s.entries|);
    var (s1, got) := Obtain(v, s, addr, dev);
    if got.Some? { AnswerExact(v, s1, got.value, addr, dev, tokenOk); }
  }

  lemma AbortTokens(v: Vol, s: State, i: nat, token: Option<nat>)
    requires Good(v, s) && Enabled(s, DoAbort(i, token))
    ensures TokensOk(v, Abort(v, s, i, token))
  {
    CancelTokens(v, s, i, token);
    var s1 := Cancel(s, i, token);
    assert EntryOk(v, s, i, |s.entries|);
    SameTokens(v, s1, Release(v, s1, i));
  }

  lemma CompleteTokens(v: Vol, s: State, i: nat, ok: bool, junk: Chunk)
    requires Good(v, s) && Enabled(s, DoComplete(i, ok, junk))
    ensures TokensOk(v, Complete(v, s, i, ok, junk))
  {
    var e := s.entries[i];
    assert EntryOk(v, s, i, |s.entries|);
    if e.refcount == 0 && !ok {
      DiscardInv(v, s, i, e.(t := None, invalid := true, buffer := junk));
      SameTokens(v, s, Complete(v, s, i, ok, junk));
    } else {
      NotifyTokens(v, s, i, ok, junk);
    }
  }

  /** The waiters' tokens stay accounted for in every step, even the unsafe one. */
  lemma StepTokens(v: Vol, s: State, step: Step)
    requires Good(v, s) && Enabled(s, step)
    ensures TokensOk(v, Next(v, s, step))
  {
    hide Aread, Complete, Abort, EntryOk, Unique;
    match step
    case DoAread(addr, dev, tokenOk) => AreadKeeps(v, s, addr, dev, tokenOk);
    case DoEblank => EblankInv(v, s); SameTokens(v, s, Eblank(v, s).0);
    case DoRelease(i) => SameTokens(v, s, Release(v, s, i));
    case DoAbort(i, token) => AbortTokens(v, s, i, token);
    case DoComplete(i, ok, junk) => CompleteTokens(v, s, i, ok, junk);
    case DoFill(i, data) => SameTokens(v, s, Fill(s, i, data));
    case DoFlush(ok, junk) => FlushHeadInv(v, s, ok, junk); SameTokens(v, s, FlushHead(v, s, ok, junk));
  }

  /** A step keeps the cache consistent exactly if it is safe. */
  lemma StepKeeps(v: Vol, s: State, step: Step)
    requires Good(v, s) && Enabled(s, step)
    ensures Good(v, Next(v, s, step)) <==> Safe(s, step)
  {
    StepTokens(v, s, step);
    match step
    case DoAread(addr, dev, tokenOk) => AreadKeeps(v, s, addr, dev, tokenOk);
    case DoEblank => EblankInv(v, s);
    case DoRelease(i) => ReleaseInv(v, s, i);
    case DoAbort(i, token) => ChainDistinct(s, i); AbortInv(v, s, i, token);
    case DoComplete(i, ok, junk) => CompleteInv(v, s, i, ok, junk);
    case DoFill(i, data) => FillInv(v, s, i, data);
    case DoFlush(ok, junk) => FlushHeadInv(v, s, ok, junk);
  }

  /** What a step is meant to do: a release that destroys a failed entry takes it out of its
      collision list and leaves the available entries alone. */
  ghost function Meant(v: Vol, s: State, step: Step): State
    requires Ranged(v, s) && Enabled(s, step)
  {
    match step
    case DoRelease(i) => ReleaseMeant(v, s, i)
    case DoAbort(i, token) => AbortMeant(v, s, i, token)
    case _ => Next(v, s, step)
  }

  lemma ReleaseTokens(v: Vol, s: State, i: nat)
    requires Ranged(v, s) && TokensOk(v, s) && i < |s.entries|
    ensures TokensOk(v, ReleaseMeant(v, s, i))
  {
    SameTokens(v, s, ReleaseMeant(v, s, i));
  }

  lemma MeantTokens(v: Vol, s: State, step: Step)
    requires Good(v, s) && Enabled(s, step)
    ensures TokensOk(v, Meant(v, s, step))
  {
    hide TokensOk, Release, ReleaseMeant;
    match step
    case DoRelease(i) => ReleaseTokens(v, s, i);
    case DoAbort(i, token) =>
      CancelTokens(v, s, i, token);
      ReleaseTokens(v, Cancel(s, i, token), i);
    case _ => StepTokens(v, s, step);
  }

  /** Every step keeps the cache consistent if it does what is meant, and the code does what is
      meant exactly in the safe steps. */
  lemma MeantKeeps(v: Vol, s: State, step: Step)
    requires Good(v, s) && Enabled(s, step)
    ensures Good(v, Meant(v, s, step))
    ensures Next(v, s, step) == Meant(v, s, step) <==> Safe(s, step)
  {
    MeantTokens(v, s, step);
    match step
    case DoRelease(i) => ReleaseMeantInv(v, s, i);
    case DoAbort(i, token) => ChainDistinct(s, i); AbortMeantInv(v, s, i, token);
    case _ => StepKeeps(v, s, step);
  }

  // ---------------------------------------------------------------- runs

  /** A step, taken the way it is meant, leads from `s` to `s1`. */
  ghost predicate Leads(v: Vol, s: State, step: Step, s1: State) {
    Ranged(v, s) && Enabled(s, step) && s1 == Meant(v, s, step)
  }

  /** The states of a run of the cache as it is meant, first to last. */
  ghost predicate Run(v: Vol, states: seq<State>, steps: seq<Step>) {
    && |states| == |steps| + 1
    && forall k :: 0 <= k < |steps| ==> Leads(v, states[k], steps[k], states[k + 1])
  }

  /** A fresh cache: all buffers are in the pool. */
  ghost predicate Initial(v: Vol, s: State) {
    && 0 < v.htlen == |s.clist| && (forall b :: 0 <= b < |s.clist| ==> s.clist[b] == [])
    && s.alist == [] && s.want == [] && s.log == [] && s.nbEntries == 0 && s.nbRef == 0
    && |s.free| == |s.entries| && (forall i :: 0 <= i < |s.free| ==> s.free[i] == i)
    && (forall i :: 0 <= i < |s.entries| ==>
         s.entries[i].refcount == 0 && s.entries[i].t.None? && s.entries[i].chain == [])
  }

  lemma {:induction false} RefsNone(es: seq<Entry>)
    requires forall i :: 0 <= i < |es| ==> es[i].refcount == 0
    ensures Refs(es) == 0
  {
    if es != [] { RefsNone(es[..|es| - 1]); }
  }

  lemma {:induction false} WaitsNone(es: seq<Entry>, x: nat)
    requires forall i :: 0 <= i < |es| ==> es[i].chain == []
    ensures Waits(es, x) == 0
  {
    if es != [] { WaitsNone(es[..|es| - 1], x); }
  }

  lemma InitialGood(v: Vol, s: State)
    requires Initial(v, s)
    ensures Good(v, s)
  {
    RefsNone(s.entries);
    forall x: nat
      ensures Waits(s.entries, x) + Ends(s.log, x) == if x < |s.want| then 1 else 0
    {
      WaitsNone(s.entries, x);
    }
    forall i | 0 <= i < |s.entries|
      ensures EntryOk(v, s, i, |s.entries|) && i in s.free
    {
      assert s.free[i] in s.free;
      assert Unlinked(s, i);
    }
  }

  /** The states of a run of the code. */
  ghost predicate CodeRun(v: Vol, states: seq<State>, steps: seq<Step>) {
    && |states| == |steps| + 1
    && forall k :: 0 <= k < |steps| ==>
         Ranged(v, states[k]) && Enabled(states[k], steps[k]) && states[k + 1] == Next(v, states[k], steps[k])
  }

  /** The main invariant: every state of a run is consistent. */
  lemma {:induction false} RunKeeps(v: Vol, states: seq<State>, steps: seq<Step>, k: nat)
    requires Run(v, states, steps) && Good(v, states[0]) && k < |states|
    ensures Good(v, states[k])
  {
    if k > 0 {
      RunKeeps(v, states, steps, k - 1);
      assert Leads(v, states[k - 1], steps[k - 1], states[k]);
      MeantKeeps(v, states[k - 1], steps[k - 1]);
    }
  }

  lemma {:induction false} SafeSoFar(v: Vol, states: seq<State>, steps: seq<Step>, k: nat)
    requires CodeRun(v, states, steps) && Good(v, states[0]) && k <= |steps|
    requires forall j :: 0 <= j < k ==> Safe(states[j], steps[j])
    ensures Good(v, states[k])
  {
    hide Good, Next, Safe, Enabled;
    if k > 0 {
      SafeSoFar(v, states, steps, k - 1);
      StepKeeps(v, states[k - 1], steps[k - 1]);
    }
  }

  lemma {:induction false} FirstUnsafe(states: seq<State>, steps: seq<Step>, n: nat) returns (k: nat)
    requires n <= |steps| == |states| - 1 && exists j :: 0 <= j < n && !Safe(states[j], steps[j])
    ensures k < n && !Safe(states[k], steps[k]) && forall j :: 0 <= j < k ==> Safe(states[j], steps[j])
  {
    hide Safe;
    if exists j :: 0 <= j < n - 1 && !Safe(states[j], steps[j]) {
      k := FirstUnsafe(states, steps, n - 1);
    } else {
      k := n - 1;
    }
  }

  /** A run of the code is a run as meant, and all its states are consistent, exactly if its
      steps are safe. */
  lemma CodeRunKeeps(v: Vol, states: seq<State>, steps: seq<Step>)
    requires CodeRun(v, states, steps) && Good(v, states[0])
    ensures Run(v, states, steps) <==> forall k :: 0 <= k < |steps| ==> Safe(states[k], steps[k])
    ensures (forall k :: 0 <= k < |states| ==> Good(v, states[k])) <==>
      forall k :: 0 <= k < |steps| ==> Safe(states[k], steps[k])
  {
    hide Good, Next, Safe, Enabled, Meant;
    if forall k :: 0 <= k < |steps| ==> Safe(states[k], steps[k]) {
      forall k | 0 <= k < |states| ensures Good(v, states[k]) { SafeSoFar(v, states, steps, k); }
      forall k | 0 <= k < |steps| ensures Leads(v, states[k], steps[k], states[k + 1]) {
        MeantKeeps(v, states[k], steps[k]);
      }
    } else {
      var k := FirstUnsafe(states, steps, |steps|);
      SafeSoFar(v, states, steps, k);
      StepKeeps(v, states[k], steps[k]);
      MeantKeeps(v, states[k], steps[k]);
      assert !Good(v, states[k + 1]) && !Leads(v, states[k], steps[k], states[k + 1]);
    }
  }

  ghost predicate Reachable(v: Vol, s: State) {
    exists states, steps ::
      Run(v, states, steps) && Initial(v, states[0]) && s == states[|steps|]
  }

  lemma ReachableGood(v: Vol, s: State)
    requires Reachable(v, s)
    ensures Good(v, s)
  {
    var states, steps :| Run(v, states, steps) && Initial(v, states[0]) && s == states[|steps|];
    InitialGood(v, states[0]);
    RunKeeps(v, states, steps, |steps|);
  }

  /** The unsafe step is reached in two steps of a fresh cache: a chunk is requested, with the
      next one read ahead, and its request fails. The caller's release is then unsafe. */
  lemma UnsafeReached(v: Vol, s: State, dev: nat -> nat, junk: Chunk)
    requires Initial(v, s) && v.mounted && v.volsize == 3 && 2 <= |s.entries| && dev(1) == dev(2) == 0
    ensures Ranged(v, s)
    ensures var s1 := Aread(v, s, 1, dev, true).0;
      && Ranged(v, s1) && Enabled(s1, DoComplete(0, false, junk))
      && var s2 := Complete(v, s1, 0, false, junk);
         Reachable(v, s2) && Enabled(s2, DoRelease(0)) && !Safe(s2, DoRelease(0))
  {
    hide Aread, Good;
    InitialGood(v, s);
    AreadKeeps(v, s, 1, dev, true);
    GoodRanged(v, s);
    FreshRead(v, s, dev);
    var s1 := Aread(v, s, 1, dev, true).0;
    GoodRanged(v, s1);
    RunOfTwo(v, s, DoAread(1, dev, true), s1, DoComplete(0, false, junk), Complete(v, s1, 0, false, junk));
  }

  lemma GoodRanged(v: Vol, s: State)
    requires Good(v, s)
    ensures Ranged(v, s)
  {}

  lemma RunOfTwo(v: Vol, s: State, x: Step, s1: State, y: Step, s2: State)
    requires Initial(v, s) && Leads(v, s, x, s1) && Leads(v, s1, y, s2)
    ensures Reachable(v, s2)
  {
    hide Leads;
    assert Run(v, [s, s1, s2], [x, y]);
    assert [s, s1, s2][0] == s && [s, s1, s2][|[x, y]|] == s2;
  }

  /** A chunk that is not there goes into the first buffer of the pool. */
  lemma NewEntry(v: Vol, s: State, addr: nat, dev: nat -> nat)
    requires Ranged(v, s) && s.free != [] && dev(addr) == 0
    requires forall i :: i in s.clist[HtIndex(v.htlen, addr)] ==> i < |s.entries| && s.entries[i].addr != addr
    ensures var (a, got) := Obtain(v, s, addr, dev); var i := s.free[0];
      && got == Some(i) && a.alist == s.alist + [i] && a.free == s.free[1..] && a.want == s.want
      && a.entries == s.entries[i := a.entries[i]] && a.entries[i].addr == addr
      && a.entries[i].t.Some? && a.entries[i].refcount == 0
      && forall b, x :: 0 <= b < |a.clist| && x in a.clist[b] ==> x in s.clist[b] || x == i
  {
    hide HtIndex;
    var found := Find(v, s, addr);
    assert found.None?;
  }

  lemma OnlyOne(v: Vol, s: State)
    requires Ranged(v, s) && s.alist == [0] && 0 < |s.entries| && s.entries[0].refcount == 0
    ensures Ref(v, s, 0) ==
      s.(entries := s.entries[0 := s.entries[0].(refcount := 1)], alist := [], nbRef := s.nbRef + 1)
  {
    assert Remove([0], 0) == [];
  }

  lemma FreshRead(v: Vol, s: State, dev: nat -> nat)
    requires Initial(v, s) && Ranged(v, s) && v.mounted && v.volsize == 3 && 2 <= |s.entries|
    requires dev(1) == dev(2) == 0
    ensures var s1 := Aread(v, s, 1, dev, true).0;
      && s1.alist == [1] && 0 !in s1.free
      && s1.entries[0].t.Some? && s1.entries[0].refcount == 1 && s1.entries[0].addr == 1
  {
    hide Obtain, Ref, HtIndex;
    NewEntry(v, s, 1, dev);
    var a := Obtain(v, s, 1, dev).0;
    OnlyOne(v, a);
    var b := Ref(v, a, 0);
    NewEntry(v, b, 2, dev);
    var c := Obtain(v, b, 2, dev).0;
    assert ReadAhead(v, b, 1, 1, dev) == ReadAhead(v, c, 1, 2, dev) == c;
  }

  // ---------------------------------------------------------------- consequences

  /** Coherence: whatever a lookup finds idle and valid is the chunk on the disk. */
  lemma ReachableCoherent(v: Vol, s: State, b: nat, i: nat)
    requires Reachable(v, s)
    requires b < |s.clist| && i in s.clist[b]
    ensures i < |s.entries| && b == HtIndex(v.htlen, s.entries[i].addr) && 0 < s.entries[i].addr <= v.volsize
    ensures s.entries[i].t.None? && !s.entries[i].invalid ==> s.entries[i].buffer == v.disk(s.entries[i].addr)
    ensures forall j :: 0 <= j < |s.entries| && j !in s.free && s.entries[j].addr == s.entries[i].addr ==> j == i
  {
    ReachableGood(v, s);
    assert InRange(s.entries, s.clist[b]);
    assert EntryOk(v, s, i, |s.entries|);
    assert !Unlinked(s, i);
  }

  /** The BUG_ON conditions of the completion handler and the assertion of the unlinking
      never hold: while a request is in flight there are as many waiters as references, and
      afterwards there are none; an entry is available iff nobody references it. */
  lemma ReachableChains(v: Vol, s: State, i: nat)
    requires Reachable(v, s) && i < |s.entries|
    ensures var e := s.entries[i];
      && (e.t.Some? ==> |e.chain| == e.refcount && e.t == Some(Io(e.addr)) && i !in s.free)
      && (e.t.None? ==> e.chain == [])
      && (i in s.alist ==> e.refcount == 0 && (e.t.Some? || !e.invalid))
      && (i !in s.free && e.refcount == 0 ==> i in s.alist)
  {
    ReachableGood(v, s);
    assert EntryOk(v, s, i, |s.entries|);
  }

  /** The counters are right, and no list has an entry twice. */
  lemma ReachableCounts(v: Vol, s: State)
    requires Reachable(v, s)
    ensures s.nbEntries == |s.entries| - |s.free| && s.nbRef == Refs(s.entries)
    ensures NoDup(s.free) && NoDup(s.alist) && forall b :: 0 <= b < |s.clist| ==> NoDup(s.clist[b])
  {
    ReachableGood(v, s);
  }

  /** Every token waits once or has ended once, never both; a success callback saw the
      chunk that was asked for. */
  lemma ReachableOnce(v: Vol, s: State, x: nat)
    requires Reachable(v, s) && x < |s.want|
    ensures Waits(s.entries, x) + Ends(s.log, x) == 1
    ensures forall k, ok, data :: 0 <= k < |s.log| && s.log[k] == Notified(x, ok, data) && ok ==>
      data == v.disk(s.want[x])
  {
    ReachableGood(v, s);
    forall k, ok, data | 0 <= k < |s.log| && s.log[k] == Notified(x, ok, data) && ok
      ensures data == v.disk(s.want[x])
    {
      assert Truthful(v, s.want, s.log[k]);
    }
  }

  lemma {:induction false} RefsSome(es: seq<Entry>, i: nat)
    requires i < |es| && 0 < es[i].refcount
    ensures 0 < Refs(es)
  {
    if i < |es| - 1 { RefsSome(es[..|es| - 1], i); }
  }

  lemma {:induction false} Covers(l: seq<nat>, n: nat)
    requires forall i :: 0 <= i < n ==> i in l
    ensures n <= |l|
  {
    if n > 0 {
      assert n - 1 in l;
      var k :| 0 <= k < |l| && l[k] == n - 1;
      var m := l[..k] + l[k + 1..];
      forall i | 0 <= i < n - 1
        ensures i in m
      {
        assert i in l;
        var j :| 0 <= j < |l| && l[j] == i;
        assert if j < k then m[j] == i else m[j - 1] == i;
      }
      Covers(m, n - 1);
    }
  }

  lemma {:induction false} Fits(l: seq<nat>, n: nat)
    requires NoDup(l) && forall k :: 0 <= k < |l| ==> l[k] < n
    ensures |l| <= n
    decreases n
  {
    if l != [] {
      assert l[0] < n;
      RemoveNoDup(l, n - 1);
      var m := Remove(l, n - 1);
      forall k | 0 <= k < |m| ensures m[k] < n - 1 {
        assert m[k] in m;
        assert m[k] in l && m[k] != n - 1;
      }
      Fits(m, n - 1);
    }
  }

  /** Once nobody holds a reference and the available entries are flushed, the pool has all
      its buffers back. */
  lemma FlushedPoolFull(v: Vol, s: State)
    requires Inv(v, s) && s.alist == []
    ensures s.nbRef == 0 <==> |s.free| == |s.entries|
    ensures s.nbRef == 0 ==> s.nbEntries == 0
  {
    var n := |s.entries|;
    if s.nbRef == 0 {
      forall i | 0 <= i < n
        ensures i in s.free
      {
        assert EntryOk(v, s, i, n);
        if 0 < s.entries[i].refcount { RefsSome(s.entries, i); }
      }
      Covers(s.free, n);
      Fits(s.free, n);
    }
    if |s.free| == n {
      forall i | 0 <= i < n
        ensures i in s.free
      {
        if i !in s.free {
          var m := s.free + [i];
          Fits(m, n);
        }
      }
      forall i | 0 <= i < n ensures s.entries[i].refcount == 0 { assert EntryOk(v, s, i, n); }
      RefsNone(s.entries);
    }
  }
}
