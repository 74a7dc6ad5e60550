/** Reading files, through the chunk cache and directly from the devices. */
module FileRead {
  import opened Types
  import opened CacheSpec
  import opened CacheInv
  import opened CacheRuns
  import opened ShfsCache
  import opened CacheWarm
  import opened ReadCauses
  import Arith

  // ---------------------------------------------------------------- references held

  /** The references to buffers of chunk `a` (to blank buffers for 0). */
  ghost function RefsTo(es: seq<Entry>, a: nat): int {
    if es == [] then 0
    else RefsTo(es[..|es| - 1], a) + (if es[|es| - 1].addr == a then es[|es| - 1].refcount else 0)
  }

  /** From `s` to `s1`, `d` references to chunk `addr` were taken, and no others. */
  ghost predicate Balance(s: State, s1: State, addr: nat, d: int) {
    forall a: nat :: RefsTo(s1.entries, a) == RefsTo(s.entries, a) + (if a == addr then d else 0)
  }

  lemma {:induction false} RefsToUpdate(es: seq<Entry>, i: nat, e: Entry, a: nat)
    requires i < |es|
    ensures RefsTo(es[i := e], a) == RefsTo(es, a)
      - (if es[i].addr == a then es[i].refcount else 0) + (if e.addr == a then e.refcount else 0)
  {
    var n := |es| - 1;
    if i < n {
      RefsToUpdate(es[..n], i, e, a);
      assert es[i := e][..n] == es[..n][i := e];
    } else {
      assert es[i := e][..n] == es[..n];
    }
  }

  lemma {:induction false} RefsToSame(es: seq<Entry>, fs: seq<Entry>, a: nat)
    requires |es| == |fs|
    requires forall i :: 0 <= i < |es| ==>
      fs[i].refcount == es[i].refcount && (es[i].refcount == 0 || fs[i].addr == es[i].addr)
    ensures RefsTo(es, a) == RefsTo(fs, a)
  {
    if es != [] { RefsToSame(es[..|es| - 1], fs[..|fs| - 1], a); }
  }

  lemma UsersBalance(s: State, s1: State, addr: nat)
    requires SameUsers(s, s1)
    ensures Balance(s, s1, addr, 0)
  {
    forall a: nat ensures RefsTo(s1.entries, a) == RefsTo(s.entries, a) {
      RefsToSame(s.entries, s1.entries, a);
    }
  }

  /** One entry's reference count changes by `d`. */
  lemma EntryBalance(s: State, s1: State, i: nat, d: int)
    requires i < |s.entries| && |s1.entries| == |s.entries|
    requires s1.entries == s.entries[i := s1.entries[i]]
    requires s1.entries[i].addr == s.entries[i].addr && s1.entries[i].refcount == s.entries[i].refcount + d
    ensures Balance(s, s1, s.entries[i].addr, d)
  {
    forall a: nat
      ensures RefsTo(s1.entries, a) == RefsTo(s.entries, a) + (if a == s.entries[i].addr then d else 0)
    {
      RefsToUpdate(s.entries, i, s1.entries[i], a);
    }
  }

  lemma BalanceTransitive(s: State, s1: State, s2: State, addr: nat, d: int, d1: int)
    requires Balance(s, s1, addr, d) && Balance(s1, s2, addr, d1)
    ensures Balance(s, s2, addr, d + d1)
  {
    forall a: nat
      ensures RefsTo(s2.entries, a) == RefsTo(s.entries, a) + (if a == addr then d + d1 else 0)
    {
      assert RefsTo(s1.entries, a) == RefsTo(s.entries, a) + (if a == addr then d else 0);
    }
  }

  lemma ReferenceBalance(v: Vol, s: State, addr: nat, dev: nat -> nat)
    requires Inv(v, s) && 0 < addr <= v.volsize
    ensures var (s1, got) := Obtain(v, s, addr, dev);
      match got
      case None => Balance(s, s1, addr, 0)
      case Some(i) =>
        var s2 := Ref(v, s1, i);
        Balance(s, s2, addr, 1) && Held(v, s2, i) && s2.entries[i].addr == addr
  {
    hide Obtain;
    var none := |s.entries|;
    ObtainInv(v, s, addr, dev, none);
    ObtainUsers(v, s, addr, dev, none);
    var (s1, got) := Obtain(v, s, addr, dev);
    UsersBalance(s, s1, addr);
    if got.Some? {
      var i := got.value;
      RefInv(v, s1, i);
      EntryBalance(s1, Ref(v, s1, i), i, 1);
      BalanceTransitive(s, s1, Ref(v, s1, i), addr, 0, 1);
    }
  }

  lemma AnswerBalance(v: Vol, s: State, i: nat, addr: nat, tokenOk: bool)
    requires Ranged(v, s) && i < |s.entries| && s.entries[i].addr == addr
    ensures var (s1, r) := Answer(v, s, i, addr, tokenOk);
      Balance(s, s1, addr, if r.Error? then -1 else 0)
  {
    var (s1, r) := Answer(v, s, i, addr, tokenOk);
    if r.Hit? { UsersBalance(s, s, addr); } else { EntryBalance(s, s1, i, if r.Error? then -1 else 0); }
  }

  /** Asking for a chunk takes one reference to it, unless it fails. */
  lemma AreadBalance(v: Vol, s: State, addr: nat, dev: nat -> nat, tokenOk: bool)
    requires Good(v, s)
    ensures var (s1, r) := Aread(v, s, addr, dev, tokenOk);
      Balance(s, s1, addr, if r.Error? then 0 else 1)
  {
    hide Obtain, ReadAhead, Answer, Ref;
    if v.mounted && 0 < addr <= v.volsize {
      ReferenceBalance(v, s, addr, dev);
      var (s1, got) := Obtain(v, s, addr, dev);
      if got.Some? {
        var i := got.value;
        var s2 := Ref(v, s1, i);
        ReadAheadInv(v, s2, addr, 1, dev, i);
        ReadAheadUsers(v, s2, addr, 1, dev, i);
        var s3 := ReadAhead(v, s2, addr, 1, dev);
        UsersBalance(s2, s3, addr);
        BalanceTransitive(s, s2, s3, addr, 1, 0);
        var (s4, r) := Answer(v, s3, i, addr, tokenOk);
        AnswerBalance(v, s3, i, addr, tokenOk);
        BalanceTransitive(s, s3, s4, addr, 1, if r.Error? then -1 else 0);
      }
    } else {
      UsersBalance(s, s, addr);
    }
  }

  lemma CompleteBalance(v: Vol, s: State, i: nat, ok: bool, junk: Chunk, addr: nat)
    requires Ranged(v, s) && i < |s.entries| && s.entries[i].t.Some?
    ensures Balance(s, Complete(v, s, i, ok, junk), addr, 0)
  {
    EntryBalance(s, Complete(v, s, i, ok, junk), i, 0);
    assert forall a: nat :: RefsTo(Complete(v, s, i, ok, junk).entries, a) == RefsTo(s.entries, a);
  }

  lemma ReleaseBalance(v: Vol, s: State, i: nat)
    requires Ranged(v, s) && i < |s.entries|
    ensures Balance(s, Release(v, s, i), s.entries[i].addr, -1)
  {
    EntryBalance(s, Release(v, s, i), i, -1);
  }

  /** The same entries are referenced, as often as before, but for entry `i`, which has `d`
      references more. */
  ghost predicate Lends(s: State, s1: State, i: nat, d: int) {
    && |s1.entries| == |s.entries|
    && forall j :: 0 <= j < |s.entries| ==>
         s1.entries[j].refcount == s.entries[j].refcount + (if j == i then d else 0)
  }

  lemma LendsTransitive(s: State, s1: State, s2: State, i: nat, d: int)
    requires Lends(s, s1, 0, 0) && Lends(s1, s2, i, d)
    ensures Lends(s, s2, i, d)
  {}

  lemma LendsNone(s: State)
    ensures Lends(s, s, 0, 0)
  {}

  lemma {:induction false} RefsEqual(es: seq<Entry>, fs: seq<Entry>)
    requires |es| == |fs| && forall j :: 0 <= j < |es| ==> es[j].refcount == fs[j].refcount
    ensures Refs(es) == Refs(fs)
  {
    if es != [] { RefsEqual(es[..|es| - 1], fs[..|fs| - 1]); }
  }

  /** A request that fails leaves all reference counts alone, any other adds one to the entry
      it yields. */
  lemma AreadLends(v: Vol, s: State, addr: nat, dev: nat -> nat, tokenOk: bool)
    requires Good(v, s)
    ensures var (s1, r) := Aread(v, s, addr, dev, tokenOk);
      match r
      case Hit(i) => Lends(s, s1, i, 1)
      case Wait(i, _) => Lends(s, s1, i, 1)
      case Error(_) => Lends(s, s1, 0, 0)
  {
    hide EntryOk, Unique, Lists, Counts;
    hide Obtain, ReadAhead;
    if v.mounted && 0 < addr <= v.volsize {
      ObtainInv(v, s, addr, dev, |s.entries|);
      ObtainUsers(v, s, addr, dev, |s.entries|);
      var (s1, got) := Obtain(v, s, addr, dev);
      if got.Some? {
        var i := got.value;
        RefInv(v, s1, i);
        var s2 := Ref(v, s1, i);
        ReadAheadInv(v, s2, addr, 1, dev, i);
        ReadAheadUsers(v, s2, addr, 1, dev, i);
      }
    }
  }

  // ---------------------------------------------------------------- when a read ends

  /** A request is in flight. */
  predicate Flies(es: seq<Entry>) {
    exists i :: 0 <= i < |es| && es[i].t.Some?
  }

  /** Nobody can get the chunk: it is not in the cache, and every buffer is referenced. */
  ghost predicate Stuck(v: Vol, s: State, addr: nat)
    requires Ranged(v, s)
  {
    v.mounted && 0 < addr <= v.volsize && s.nbRef == |s.entries| && Find(v, s, addr).None?
  }

  lemma {:induction false} Unreferenced(es: seq<Entry>) returns (i: nat)
    requires Refs(es) < |es|
    ensures i < |es| && es[i].refcount <= 0
  {
    var n := |es| - 1;
    if es[n].refcount <= 0 { i := n; } else { i := Unreferenced(es[..n]); }
  }

  lemma {:induction false} RefsFull(es: seq<Entry>)
    ensures Refs(es) <= |es|
    ensures Refs(es) == |es| ==> forall i :: 0 <= i < |es| ==> 0 < es[i].refcount
  {
    if es != [] { RefsFull(es[..|es| - 1]); }
  }

  /** With every buffer referenced and the chunk absent, every attempt fails for lack of a
      buffer and changes nothing, whatever the devices and the token pool answer. */
  lemma StuckAgain(v: Vol, s: State, addr: nat, dev: nat -> nat, tokenOk: bool)
    requires Good(v, s) && Stuck(v, s, addr)
    ensures Aread(v, s, addr, dev, tokenOk) == (s, Error(EAGAIN))
  {
    assert |s.free| > 0 ==> s.free[0] in s.free;
    assert |s.alist| > 0 ==> s.alist[0] in s.alist;
    RefsFull(s.entries);
    forall i | 0 <= i < |s.entries| ensures i !in s.free && i !in s.alist {
      assert EntryOk(v, s, i, |s.entries|);
    }
  }

  /** Completions do not help. */
  lemma StuckStays(v: Vol, s: State, addr: nat, step: Step)
    requires Good(v, s) && Stuck(v, s, addr) && step.DoComplete? && Enabled(s, step)
    ensures Good(v, Next(v, s, step)) && Stuck(v, Next(v, s, step), addr)
  {
    StepKeeps(v, s, step);
    RefsFull(s.entries);
    var s1 := Next(v, s, step);
    FindExact(v, s, addr, |s.entries|);
    FindExact(v, s1, addr, |s.entries|);
  }

  /** A refused request changes nothing about what is in flight. */
  lemma RefusedFlying(v: Vol, s: State, addr: nat, dev: nat -> nat)
    requires Inv(v, s) && !NoBuffer(s) && dev(addr) != 0 && Flies(s.entries)
    ensures var s1 := Add(v, s, addr, dev).0; Flying(s1.entries) == Flying(s.entries) && Flies(s1.entries)
  {
    var (s1, got) := Take(v, s);
    var x := got.value;
    var s2 := Add(v, s, addr, dev).0;
    if s.free != [] { assert s.free[0] in s.free; }
    assert EntryOk(v, s, x, |s.entries|);
    FlyingUpdate(s.entries, x, s1.entries[x]);
    FlyingUpdate(s1.entries, x, s2.entries[x]);
    assert s1.entries == s.entries[x := s1.entries[x]] && s2.entries == s1.entries[x := s2.entries[x]];
    var i :| 0 <= i < |s.entries| && s.entries[i].t.Some?;
    assert s2.entries[i].t.Some?;
  }

  /** With tokens left, and devices that are short of request objects only while requests are
      in flight, an attempt has to be repeated only if some request is in flight, or if nobody
      can get the chunk. */
  lemma AgainFlies(v: Vol, s: State, addr: nat, dev: nat -> nat)
    requires Good(v, s) && (dev(addr) == EAGAIN ==> Flies(s.entries))
    requires Aread(v, s, addr, dev, true).1 == Error(EAGAIN)
    ensures Find(v, s, addr).None? && v.mounted && 0 < addr <= v.volsize
    ensures var s1 := Aread(v, s, addr, dev, true).0;
      Flying(s1.entries) == Flying(s.entries) && (Flies(s1.entries) || Stuck(v, s, addr))
  {
    AreadExact(v, s, addr, dev, true);
    RefsFull(s.entries);
    if NoBuffer(s) {
      if s.nbRef < |s.entries| {
        var i := Unreferenced(s.entries);
        assert EntryOk(v, s, i, |s.entries|);
        assert s.entries[i].t.Some?;
      }
    } else {
      RefusedFlying(v, s, addr, dev);
    }
  }

  // ---------------------------------------------------------------- reading one chunk

  /** The outcome that token `x` got last, if it was served. */
  function Outcome(log: seq<Event>, x: nat): Option<bool> {
    if log == [] then None
    else match log[|log| - 1]
      case Notified(y, ok, _) => if y == x then Some(ok) else Outcome(log[..|log| - 1], x)
      case Aborted(_) => Outcome(log[..|log| - 1], x)
  }

  lemma {:induction false} OutcomeNotices(log: seq<Event>, chain: seq<nat>, ok: bool, data: Chunk, x: nat)
    requires x in chain
    ensures Outcome(log + Notices(chain, ok, data), x) == Some(ok)
  {
    var all := log + Notices(chain, ok, data);
    var n := |chain| - 1;
    assert all[|all| - 1] == Notified(chain[n], ok, data);
    if chain[n] != x {
      var c := chain[..n];
      assert chain == c + [chain[n]];
      assert all[..|all| - 1] == log + Notices(c, ok, data);
      OutcomeNotices(log, c, ok, data, x);
    }
  }

  /** The cache after the unsafe step: a failed entry was destroyed while others were
      available. */
  ghost predicate Forgetful(v: Vol, s1: State) {
    exists s, i ::
      Good(v, s) && Enabled(s, DoRelease(i)) && !Safe(s, DoRelease(i)) && s1 == Release(v, s, i)
  }

  datatype ReadResult = Ok(id: nat) | Failed(errno: nat) | Retrying

  /** What the caller of a read holds: entry `i` has chunk `addr`, its request is over. */
  ghost predicate Holds(s: State, i: nat, addr: nat) {
    && i < |s.entries| && i !in s.free && s.entries[i].addr == addr
    && s.entries[i].t.None? && 0 < s.entries[i].refcount
  }

  /** What the caller of a read waits for: its token `k` is in the chain of entry `i`, or
      has got the outcome that the entry shows. */
  ghost predicate Expects(s: State, i: nat, addr: nat, k: nat) {
    && i < |s.entries| && i !in s.free && s.entries[i].addr == addr && 0 < s.entries[i].refcount
    && (s.entries[i].t.Some? ==> k in s.entries[i].chain)
    && (s.entries[i].t.None? ==> Outcome(s.log, k) == Some(!s.entries[i].invalid))
  }

  lemma ExpectsStays(v: Vol, s: State, i: nat, addr: nat, k: nat, step: Step, w: World)
    requires Good(v, s) && Expects(s, i, addr, k) && s.entries[i].t.Some? && addr != 0
    requires step.DoComplete? && Enabled(s, step)
    requires !step.ok ==> w.fails(s.entries[step.id].t.value.target)
    ensures Good(v, Next(v, s, step)) && Expects(Next(v, s, step), i, addr, k)
    ensures var e := Next(v, s, step).entries[i]; e.t.None? && e.invalid ==> w.fails(addr)
  {
    StepKeeps(v, s, step);
    var j := step.id;
    assert EntryOk(v, s, j, |s.entries|);
    if j == i {
      OutcomeNotices(s.log, s.entries[i].chain, step.ok,
        if step.ok then v.disk(s.entries[i].t.value.target) else step.junk, k);
    }
  }

  /** A completion moves no reference. */
  lemma CompleteLends(v: Vol, s: State, step: Step)
    requires Ranged(v, s) && step.DoComplete? && Enabled(s, step)
    ensures Lends(s, Next(v, s, step), 0, 0)
  {}

  /** `shfs_aio_wait` for token `k`. */
  method AwaitToken(c: Cache, i: nat, addr: nat, k: nat, w: World)
    requires Good(c.vol, c.View()) && Expects(c.View(), i, addr, k) && addr != 0 && c.pool[i].t.Some?
    modifies c, c.pool, c.htable
    ensures Good(c.vol, c.View()) && Expects(c.View(), i, addr, k) && c.pool[i].t.None?
    ensures Balance(old(c.View()), c.View(), addr, 0) && Lends(old(c.View()), c.View(), 0, 0)
    ensures NoWorse(old(c.View()), c.View(), w) && (c.pool[i].invalid ==> w.fails(addr))
  {
    hide Good, Inv, Balance, Lends, NoWorse, Next;
    ghost var s0 := c.View();
    BalanceNone(s0, addr);
    LendsNone(s0);
    NoWorseNone(s0, w);
    GoodRanged(c.vol, s0);
    while c.pool[i].t.Some?
      invariant Good(c.vol, c.View()) && Ranged(c.vol, c.View()) && Expects(c.View(), i, addr, k)
      invariant Balance(s0, c.View(), addr, 0) && Lends(s0, c.View(), 0, 0) && NoWorse(s0, c.View(), w)
      invariant c.pool[i].t.None? && c.pool[i].invalid ==> w.fails(addr)
      decreases Flying(c.pool[..])
    {
      ghost var s := c.View();
      var step := c.Poll(w.fails);
      PollKeeps(c.vol, s, step, addr, w);
      GoodRanged(c.vol, c.View());
      ExpectsStays(c.vol, s, i, addr, k, step, w);
      BalanceTransitive(s0, s, c.View(), addr, 0, 0);
      LendsTransitive(s0, s, c.View(), 0, 0);
      NoWorseTransitive(s0, s, c.View(), w);
    }
  }

  /** What the delivery of one completion keeps. */
  lemma PollKeeps(v: Vol, s: State, step: Step, addr: nat, w: World)
    requires Good(v, s) && Enabled(s, step) && step.DoComplete?
    requires !step.ok ==> w.fails(s.entries[step.id].t.value.target)
    ensures NoWorse(s, Next(v, s, step), w)
    ensures Good(v, Next(v, s, step)) && Lends(s, Next(v, s, step), 0, 0) && Balance(s, Next(v, s, step), addr, 0)
    ensures Stuck(v, s, addr) ==> Stuck(v, Next(v, s, step), addr)
  {
    hide Stuck, Balance, Lends, NoWorse, Complete;
    CompletionNoWorse(v, s, step, w);
    StepKeeps(v, s, step);
    if Stuck(v, s, addr) { StuckStays(v, s, addr, step); }
    CompleteBalance(v, s, step.id, step.ok, step.junk, addr);
    CompleteLends(v, s, step);
  }

  /** `shfs_poll_blkdevs`: some completions are delivered, at least one if `some` asks for it. */
  method PollSome(c: Cache, addr: nat, some: bool, w: World)
    requires Good(c.vol, c.View()) && (some ==> Flies(c.pool[..]))
    modifies c, c.pool, c.htable
    ensures Good(c.vol, c.View()) && Balance(old(c.View()), c.View(), addr, 0)
    ensures Lends(old(c.View()), c.View(), 0, 0) && NoWorse(old(c.View()), c.View(), w)
    ensures Stuck(c.vol, old(c.View()), addr) ==> Stuck(c.vol, c.View(), addr)
    ensures some ==> Flying(c.pool[..]) < Flying(old(c.pool[..]))
  {
    hide Good, Inv, Stuck, Balance, Lends, NoWorse, Next;
    GoodRanged(c.vol, c.View());
    BalanceNone(c.View(), addr);
    LendsNone(c.View());
    NoWorseNone(c.View(), w);
    var more: bool := *;
    if some { more := true; }
    while more && Flies(c.pool[..])
      invariant Good(c.vol, c.View()) && Balance(old(c.View()), c.View(), addr, 0)
      invariant Lends(old(c.View()), c.View(), 0, 0) && Ranged(c.vol, c.View())
      invariant NoWorse(old(c.View()), c.View(), w)
      invariant Stuck(c.vol, old(c.View()), addr) ==> Stuck(c.vol, c.View(), addr)
      invariant Flying(c.pool[..]) <= Flying(old(c.pool[..]))
      invariant some && (!more || !Flies(c.pool[..])) ==> Flying(c.pool[..]) < Flying(old(c.pool[..]))
      decreases Flying(c.pool[..])
    {
      ghost var s := c.View();
      var step := c.Poll(w.fails);
      PollKeeps(c.vol, s, step, addr, w);
      GoodRanged(c.vol, c.View());
      BalanceTransitive(old(c.View()), s, c.View(), addr, 0, 0);
      LendsTransitive(old(c.View()), s, c.View(), 0, 0);
      NoWorseTransitive(old(c.View()), s, c.View(), w);
      more := *;
    }
  }

  /** The failure exits of a read: gives the reference back. */
  method GiveUp(c: Cache, i: nat)
    requires Good(c.vol, c.View()) && Enabled(c.View(), DoRelease(i))
    modifies c, c.pool, c.htable
    ensures Good(c.vol, c.View()) || Forgetful(c.vol, c.View())
    ensures Balance(old(c.View()), c.View(), old(c.pool[i].addr), -1) && Lends(old(c.View()), c.View(), i, -1)
  {
    ReleaseBalance(c.vol, c.View(), i);
    c.Drop(i);
  }

  /** Devices that are not short of request objects. */
  function Accepting(dev: nat -> nat): nat -> nat {
    (a: nat) => if dev(a) == EAGAIN then 0 else dev(a)
  }

  /** Devices that refuse only what they may. */
  function Admitted(dev: nat -> nat, w: World): nat -> nat {
    (a: nat) => if dev(a) == EAGAIN || w.refuses(a, dev(a)) then dev(a) else 0
  }

  /** What the devices and the token pool answer to a request. */
  method Answers(c: Cache, addr: nat, w: World) returns (dev: nat -> nat, tokenOk: bool)
    ensures w.willing ==> tokenOk && (dev(addr) == EAGAIN ==> Flies(c.pool[..]))
    ensures dev(addr) != 0 && dev(addr) != EAGAIN ==> w.refuses(addr, dev(addr))
  {
    var any: nat -> nat := *;
    dev, tokenOk := Admitted(any, w), *;
    if w.willing {
      tokenOk := true;
      if !Flies(c.pool[..]) { dev := Accepting(dev); }
    }
  }

  /** The rest of an attempt that got entry `i`: waits for the caller's token, if there is one,
      and gives the entry back if it has no data. */
  method Settle(c: Cache, addr: nat, i: nat, token: Option<nat>, w: World) returns (r: ReadResult)
    requires Good(c.vol, c.View()) && addr != 0
    requires match token
      case None => Holds(c.View(), i, addr)
      case Some(k) => Expects(c.View(), i, addr, k) && c.pool[i].t.Some?
    modifies c, c.pool, c.htable
    ensures r.Ok? ==> Good(c.vol, c.View()) && Holds(c.View(), i, addr) && r.id == i && !c.pool[i].invalid
    ensures !r.Ok? ==> r.Failed? && (Good(c.vol, c.View()) || Forgetful(c.vol, c.View()))
    ensures Balance(old(c.View()), c.View(), addr, if r.Ok? then 0 else -1)
    ensures Lends(old(c.View()), c.View(), i, if r.Ok? then 0 else -1)
    ensures r.Ok? ==> NoWorse(old(c.View()), c.View(), w)
    ensures token.None? ==> if old(c.pool[i].invalid) then r == Failed(EIO) else r.Ok? && c.View() == old(c.View())
    ensures token.Some? && r.Failed? ==> w.fails(addr)
  {
    hide Release, Complete, Balance, Lends, NoWorse;
    ghost var s := c.View();
    BalanceNone(s, addr);
    LendsNone(s);
    NoWorseNone(s, w);
    var failed, errno: nat := c.pool[i].invalid, EIO;
    if token.Some? {
      AwaitToken(c, i, addr, token.value, w);
      failed := Outcome(c.log, token.value) == Some(false);
      errno := *;
    }
    if failed {
      ghost var s1 := c.View();
      GiveUp(c, i);
      BalanceTransitive(s, s1, c.View(), addr, 0, -1);
      LendsTransitive(s, s1, c.View(), i, -1);
      return Failed(errno);
    }
    LendsZero(s, c.View(), i);
    r := Ok(i);
  }

  lemma LendsZero(s: State, s1: State, i: nat)
    requires Lends(s, s1, 0, 0)
    ensures Lends(s, s1, i, 0)
  {}

  /** The read found the chunk in the cache and changed nothing but what the request does. */
  ghost predicate FoundBy(v: Vol, s: State, s1: State, addr: nat) {
    exists dev: nat -> nat, tokenOk: bool :: Ranged(v, s) && s1 == Aread(v, s, addr, dev, tokenOk).0
  }

  /** One attempt to get a chunk. */
  method TryRead(c: Cache, addr: nat, w: World) returns (r: ReadResult)
    requires Good(c.vol, c.View())
    modifies c, c.pool, c.htable
    ensures r.Ok? ==> Good(c.vol, c.View()) && Holds(c.View(), r.id, addr) && !c.pool[r.id].invalid && addr != 0
    ensures r.Retrying? ==> Good(c.vol, c.View())
    ensures r.Failed? ==> Good(c.vol, c.View()) || Forgetful(c.vol, c.View())
    ensures Balance(old(c.View()), c.View(), addr, if r.Ok? then 1 else 0)
    ensures Lends(old(c.View()), c.View(), if r.Ok? then r.id else 0, if r.Ok? then 1 else 0)
    ensures Stuck(c.vol, old(c.View()), addr) ==> r.Retrying? && c.View() == old(c.View())
    ensures w.willing && r.Retrying? ==> Again(c.vol, old(c.View()), c.View(), addr)
    ensures r.Failed? ==> Cause(c.vol, old(c.View()), w, addr, r.errno)
    ensures !r.Failed? ==> NoWorse(old(c.View()), c.View(), w)
    ensures Warm(c.vol, old(c.View()), addr) ==>
      r.Ok? && Some(r.id) == Find(c.vol, old(c.View()), addr) && FoundBy(c.vol, old(c.View()), c.View(), addr)
  {
    hide Aread, Good, Inv, Forgetful, Balance, Lends, NoWorse, Cause, Warm, Find, Stuck, Again, FoundBy;
    ghost var s := c.View();
    var dev, tokenOk := Answers(c, addr, w);
    AttemptKeeps(c.vol, s, addr, dev, tokenOk, w);
    AttemptAnswer(c.vol, s, addr, dev, tokenOk, w);
    var a := c.Read(addr, dev, tokenOk);
    if a.Error? { return if a.errno == EAGAIN then Retrying else Failed(a.errno); }
    ghost var s1 := c.View();
    r := Settle(c, addr, a.id, if a.Wait? then Some(a.token) else None, w);
    BalanceTransitive(s, s1, c.View(), addr, 1, if r.Ok? then 0 else -1);
    LendsBack(s, s1, c.View(), a.id, if r.Ok? then 0 else -1);
    if r.Ok? { NoWorseTransitive(s, s1, c.View(), w); }
    if r.Failed? && a.Wait? { FailsCause(c.vol, s, w, addr, r.errno); }
  }

  lemma LendsBack(s: State, s1: State, s2: State, i: nat, d: int)
    requires Lends(s, s1, i, 1) && Lends(s1, s2, i, d)
    ensures Lends(s, s2, i, d + 1) && (d == -1 ==> Lends(s, s2, 0, 0))
  {}

  /** What a request leaves, whatever is answered. */
  lemma AttemptKeeps(v: Vol, s: State, addr: nat, dev: nat -> nat, tokenOk: bool, w: World)
    requires Good(v, s)
    ensures Ranged(v, s)
    ensures var (s1, r) := Aread(v, s, addr, dev, tokenOk);
      && Good(v, s1) && |s1.entries| == |s.entries| && NoWorse(s, s1, w)
      && Balance(s, s1, addr, if r.Error? then 0 else 1)
      && match r
         case Hit(i) => Lends(s, s1, i, 1) && Holds(s1, i, addr) && addr != 0
         case Wait(i, k) =>
           && Lends(s, s1, i, 1) && Expects(s1, i, addr, k) && s1.entries[i].t.Some?
           && v.mounted && 0 < addr <= v.volsize
         case Error(_) => Lends(s, s1, 0, 0)
  {
    hide Aread, Good, Balance, Lends, NoWorse;
    GoodRanged(v, s);
    RequestNoWorse(v, s, addr, dev, tokenOk, w);
    AreadKeeps(v, s, addr, dev, tokenOk);
    AreadBalance(v, s, addr, dev, tokenOk);
    AreadLends(v, s, addr, dev, tokenOk);
  }

  /** What a request is answered. */
  lemma AttemptAnswer(v: Vol, s: State, addr: nat, dev: nat -> nat, tokenOk: bool, w: World)
    requires Good(v, s) && (dev(addr) != 0 && dev(addr) != EAGAIN ==> w.refuses(addr, dev(addr)))
    requires w.willing ==> tokenOk && (dev(addr) == EAGAIN ==> Flies(s.entries))
    ensures Ranged(v, s)
    ensures var (s1, r) := Aread(v, s, addr, dev, tokenOk);
      && (r.Error? && r.errno != EAGAIN ==> Cause(v, s, w, addr, r.errno))
      && (r.Hit? && r.id < |s1.entries| && s1.entries[r.id].invalid ==> Cause(v, s, w, addr, EIO))
      && (Stuck(v, s, addr) ==> s1 == s && r == Error(EAGAIN))
      && (w.willing && r == Error(EAGAIN) ==> Again(v, s, s1, addr))
      && (Warm(v, s, addr) ==> Find(v, s, addr).Some? && r == Hit(Find(v, s, addr).value) && FoundBy(v, s, s1, addr))
      && (Warm(v, s, addr) ==> r.id < |s1.entries| && !s1.entries[r.id].invalid)
  {
    hide Aread, Good, Cause, Warm, Find, Stuck;
    GoodRanged(v, s);
    var (s1, r) := Aread(v, s, addr, dev, tokenOk);
    if r.Error? { RefusedCause(v, s, addr, dev, tokenOk, w); }
    HitCause(v, s, addr, dev, tokenOk, w);
    if Stuck(v, s, addr) { StuckAgain(v, s, addr, dev, tokenOk); }
    if w.willing && r == Error(EAGAIN) { AgainFlies(v, s, addr, dev); }
    if Warm(v, s, addr) { WarmPassed(v, s, addr, dev, tokenOk); }
  }

  lemma FailsCause(v: Vol, s: State, w: World, addr: nat, errno: nat)
    requires v.mounted && 0 < addr <= v.volsize && w.fails(addr)
    ensures Cause(v, s, w, addr, errno)
  {}

  /** After an attempt that has to be repeated: the chunk was absent, and requests are in
      flight unless nobody can get it. */
  ghost predicate Again(v: Vol, s: State, s1: State, addr: nat)
    requires Ranged(v, s)
  {
    && Find(v, s, addr).None? && v.mounted && 0 < addr <= v.volsize
    && Flying(s1.entries) == Flying(s.entries) && (Flies(s1.entries) || Stuck(v, s, addr))
  }

  /** If no request is in flight then, nobody can get the chunk. */
  lemma AgainStuck(v: Vol, s: State, s1: State, s2: State, addr: nat)
    requires Ranged(v, s) && Again(v, s, s1, addr) && Ranged(v, s2)
    ensures Flies(s1.entries) || Stuck(v, s, addr)
    ensures !Stuck(v, s, addr) && s2.nbRef == s.nbRef && |s2.entries| == |s.entries| ==> !Stuck(v, s2, addr)
  {}

  /** `shfs_cache_read`: repeats the attempt as long as it fails for lack of resources. With
      willing devices it ends, except exactly if nobody can get the chunk; then, or if they are
      not willing, the model gives up after `patience` attempts. */
  method ReadChunk(c: Cache, addr: nat, w: World, patience: nat) returns (r: ReadResult)
    requires Good(c.vol, c.View())
    modifies c, c.pool, c.htable
    ensures r.Ok? ==> Good(c.vol, c.View()) && Holds(c.View(), r.id, addr)
    ensures r.Ok? ==> !c.pool[r.id].invalid && c.pool[r.id].buffer == c.vol.disk(addr) && addr <= c.vol.volsize
    ensures r.Retrying? ==> Good(c.vol, c.View())
    ensures r.Failed? ==> Good(c.vol, c.View()) || Forgetful(c.vol, c.View())
    ensures Balance(old(c.View()), c.View(), addr, if r.Ok? then 1 else 0)
    ensures Lends(old(c.View()), c.View(), if r.Ok? then r.id else 0, if r.Ok? then 1 else 0)
    ensures Stuck(c.vol, old(c.View()), addr) ==> r.Retrying?
    ensures w.willing && r.Retrying? ==> Stuck(c.vol, old(c.View()), addr)
    ensures r.Failed? ==> Cause(c.vol, old(c.View()), w, addr, r.errno)
    ensures !r.Failed? ==> NoWorse(old(c.View()), c.View(), w)
    ensures Warm(c.vol, old(c.View()), addr) ==>
      r.Ok? && Some(r.id) == Find(c.vol, old(c.View()), addr) && FoundBy(c.vol, old(c.View()), c.View(), addr)
  {
    hide Good, Inv, Stuck, Again, Balance, Lends, Forgetful, NoWorse, Cause, Warm, FoundBy, Find;
    ghost var s0 := c.View();
    GoodRanged(c.vol, s0);
    BalanceNone(s0, addr);
    LendsNone(s0);
    NoWorseNone(s0, w);
    var tries := 0;
    while true
      invariant Good(c.vol, c.View()) && Ranged(c.vol, c.View())
      invariant Balance(s0, c.View(), addr, 0) && Lends(s0, c.View(), 0, 0)
      invariant Stuck(c.vol, s0, addr) ==> Stuck(c.vol, c.View(), addr)
      invariant w.willing && !Stuck(c.vol, s0, addr) ==> !Stuck(c.vol, c.View(), addr)
      invariant NoWorse(s0, c.View(), w) && (Warm(c.vol, s0, addr) ==> c.View() == s0)
      invariant tries <= patience
      decreases patience - tries, Flying(c.pool[..])
    {
      ghost var s := c.View();
      r := TryRead(c, addr, w);
      BalanceTransitive(s0, s, c.View(), addr, 0, if r.Ok? then 1 else 0);
      LendsTransitive(s0, s, c.View(), if r.Ok? then r.id else 0, if r.Ok? then 1 else 0);
      if r.Ok? { HeldData(c.vol, c.View(), r.id, addr); }
      if r.Failed? { CauseBefore(c.vol, s0, s, w, addr, r.errno); return; }
      NoWorseTransitive(s0, s, c.View(), w);
      if !r.Retrying? { return; }
      ghost var s1 := c.View();
      var some := w.willing && Flies(c.pool[..]);
      if w.willing { AgainFlying(c.vol, s, s1, addr); }
      if !some && tries == patience { return; }
      PollSome(c, addr, some, w);
      NoWorseTransitive(s0, s1, c.View(), w);
      BalanceTransitive(s0, s1, c.View(), addr, 0, 0);
      LendsTransitive(s0, s1, c.View(), 0, 0);
      LendsTransitive(s, s1, c.View(), 0, 0);
      LendsRefs(c.vol, s, c.View());
      if w.willing { AgainStuck(c.vol, s, s1, c.View(), addr); }
      if !some { tries := tries + 1; }
    }
  }

  lemma BalanceNone(s: State, addr: nat)
    ensures Balance(s, s, addr, 0)
  {}

  lemma AgainFlying(v: Vol, s: State, s1: State, addr: nat)
    requires Ranged(v, s) && Again(v, s, s1, addr)
    ensures Flying(s1.entries) == Flying(s.entries) && (Flies(s1.entries) || Stuck(v, s, addr))
  {}

  lemma HeldData(v: Vol, s: State, i: nat, addr: nat)
    requires Good(v, s) && Holds(s, i, addr) && !s.entries[i].invalid && addr != 0
    ensures s.entries[i].buffer == v.disk(addr) && addr <= v.volsize
  {
    assert EntryOk(v, s, i, |s.entries|);
  }

  lemma ReleaseLends(v: Vol, s: State, i: nat)
    requires Ranged(v, s) && i < |s.entries|
    ensures Lends(s, Release(v, s, i), i, -1)
  {}

  lemma LendsRefs(v: Vol, s: State, s1: State)
    requires Good(v, s) && Good(v, s1) && Lends(s, s1, 0, 0)
    ensures s1.nbRef == s.nbRef && Ranged(v, s1)
  {
    RefsEqual(s.entries, s1.entries);
  }

  // ---------------------------------------------------------------- reading a file

  /** A container: where it starts, at which byte of its first chunk, and its length. */
  datatype File = File(link: bool, chunk: nat, offset: nat, len: nat)

  const WORD := 0x1_0000_0000_0000_0000

  /** Byte `j` of the container. */
  function FileByte(v: Vol, cs: nat, f: File, j: nat): Byte
    requires 0 < cs && forall a :: |v.disk(a)| == cs
  {
    v.disk(f.chunk + (f.offset + j) / cs)[(f.offset + j) % cs]
  }

  /** The test for the requested bytes; the sum is that of 64-bit words. */
  predicate InBounds(f: File, offset: nat, len: nat) {
    !f.link && offset <= f.len && (offset + len) % WORD <= f.len
  }

  /** The requested bytes lie in the file. */
  predicate Within(f: File, offset: nat, len: nat) {
    !f.link && offset + len <= f.len
  }

  /** The request is refused: the entry is a link, or the range ends behind the file, and either
      it begins there too or its end is a 64-bit word. */
  predicate Refused(f: File, offset: nat, len: nat) {
    f.link || f.len < offset || f.len < offset + len < WORD
  }

  /** What the test admits: the ranges in the file, and those from a byte of the file on whose
      end wraps around. */
  lemma AdmitsExact(f: File, offset: nat, len: nat)
    requires f.len < WORD && offset < WORD && len < WORD
    ensures InBounds(f, offset, len) <==> Within(f, offset, len) || (!f.link && offset <= f.len && WORD <= offset + len)
    ensures InBounds(f, offset, len) <==> !Refused(f, offset, len)
  {
    if WORD <= offset + len { Arith.DivUnique(offset + len, WORD, 1, offset + len - WORD); }
  }

  lemma RefusedFails(f: File, offset: nat, len: nat)
    ensures Refused(f, offset, len) ==> !InBounds(f, offset, len)
    ensures InBounds(f, offset, len) ==> Within(f, offset, len) || (0 < len && WORD <= offset + len)
  {
    if offset + len < WORD { Arith.DivUnique(offset + len, WORD, 0, offset + len); }
  }

  /** The test is right exactly if the end of the range is a 64-bit word, or the request is
      refused for another reason. */
  lemma TestRight(f: File, offset: nat, len: nat)
    requires f.len < WORD && offset < WORD && len < WORD
    ensures (InBounds(f, offset, len) <==> Within(f, offset, len)) <==>
      offset + len < WORD || f.link || f.len < offset
  {
    AdmitsExact(f, offset, len);
  }

  /** An instance: nearly all bytes of the address space are admitted in a file of ten. */
  lemma TestWraps(chunk: nat)
    ensures var f := File(false, chunk, 0, 10);
      InBounds(f, 1, WORD - 1) && !Within(f, 1, WORD - 1) && !Within(f, 1, 10)
  {
    AdmitsExact(File(false, chunk, 0, 10), 1, WORD - 1);
  }

  datatype FileResult = Done | Fails(errno: nat) | StillRetrying

  method CopyBytes(dst: array<Byte>, at: nat, src: seq<Byte>, off: nat, n: nat)
    requires at + n <= dst.Length && off + n <= |src|
    modifies dst
    ensures forall k :: 0 <= k < dst.Length ==>
      dst[k] == if at <= k < at + n then src[off + (k - at)] else old(dst[k])
  {
    var m := 0;
    while m < n
      invariant m <= n
      invariant forall k :: 0 <= k < dst.Length ==>
        dst[k] == if at <= k < at + m then src[off + (k - at)] else old(dst[k])
    {
      dst[at + m] := src[off + m];
      m := m + 1;
    }
  }

  /** Walking `n` bytes on from a position that is in chunk `c` at byte `b`. */
  lemma ChunkOf(cs: nat, pos: nat, c: nat, b: nat, k: nat)
    requires 0 < cs && pos == c * cs + b && b + k < cs
    ensures (pos + k) / cs == c && (pos + k) % cs == b + k
  {
    Arith.DivUnique(pos + k, cs, c, b + k);
  }

  /** The first `n` bytes of the buffer are the file's from `offset` on, the rest is as
      it was. */
  ghost predicate Copied(v: Vol, cs: nat, f: File, offset: nat, was: seq<Byte>, now: seq<Byte>, n: nat)
    requires 0 < cs && forall a :: |v.disk(a)| == cs
  {
    && |now| == |was|
    && forall k :: 0 <= k < |now| ==> now[k] == if k < n then FileByte(v, cs, f, offset + k) else was[k]
  }

  /** The `len` bytes of the container from `offset` on. */
  function Slice(v: Vol, cs: nat, f: File, offset: nat, len: nat): seq<Byte>
    requires 0 < cs && forall a :: |v.disk(a)| == cs
  {
    seq(len, k requires 0 <= k < len => FileByte(v, cs, f, offset + k))
  }

  lemma CopiedSlice(v: Vol, cs: nat, f: File, offset: nat, was: seq<Byte>, now: seq<Byte>, len: nat)
    requires 0 < cs && (forall a :: |v.disk(a)| == cs) && len <= |was|
    requires Copied(v, cs, f, offset, was, now, len)
    ensures now == Slice(v, cs, f, offset, len) + was[len..]
  {
    hide FileByte;
  }

  lemma CopiedMore(v: Vol, cs: nat, f: File, offset: nat, was: seq<Byte>, mid: seq<Byte>, now: seq<Byte>,
                   n: nat, m: nat, c: nat, b: nat)
    requires 0 < cs && forall a :: |v.disk(a)| == cs
    requires Copied(v, cs, f, offset, was, mid, n) && |now| == |mid| && n + m <= |mid|
    requires At(cs, f.offset + offset + n, c, b) && b + m <= cs
    requires forall k :: 0 <= k < |now| ==>
      now[k] == if n <= k < n + m then v.disk(f.chunk + c)[b + (k - n)] else mid[k]
    ensures Copied(v, cs, f, offset, was, now, n + m)
  {
    forall k | 0 <= k < |now|
      ensures now[k] == if k < n + m then FileByte(v, cs, f, offset + k) else was[k]
    {
      if n <= k < n + m { ChunkOf(cs, f.offset + offset + n, c, b, k - n); }
    }
  }

  /** The chunk that holds byte `j` of the container. */
  function ChunkNo(cs: nat, f: File, j: nat): nat
    requires 0 < cs
  {
    f.chunk + (f.offset + j) / cs
  }

  /** Some of the `len` bytes from `offset` on lie in chunk `a`. */
  ghost predicate Touches(cs: nat, f: File, offset: nat, len: nat, a: nat)
    requires 0 < cs
  {
    exists j :: offset <= j < offset + len && ChunkNo(cs, f, j) == a
  }

  /** No reference was taken or given back. */
  ghost predicate SameRefs(s: State, s1: State) {
    forall a: nat :: RefsTo(s1.entries, a) == RefsTo(s.entries, a)
  }

  /** The chunk was found in the cache, read, and given back. */
  ghost predicate PassedBy(v: Vol, s: State, s1: State, addr: nat) {
    exists dev: nat -> nat, tokenOk: bool :: Ranged(v, s) &&
      var mid := Aread(v, s, addr, dev, tokenOk).0;
      Ranged(v, mid) && match Find(v, s, addr)
        case Some(i) => i < |mid.entries| && s1 == Release(v, mid, i)
        case None => false
  }

  lemma FoundPassed(v: Vol, s: State, s1: State, i: nat, addr: nat)
    requires FoundBy(v, s, s1, addr) && Ranged(v, s) && Ranged(v, s1) && i < |s1.entries| && Find(v, s, addr) == Some(i)
    ensures PassedBy(v, s, Release(v, s1, i), addr)
  {
    var dev: nat -> nat, tokenOk: bool :| s1 == Aread(v, s, addr, dev, tokenOk).0;
  }

  /** Copies bytes `b` to `b + n` of chunk `addr` to position `at` of `buf`. */
  method ReadPiece(c: Cache, addr: nat, b: nat, buf: array<Byte>, at: nat, n: nat, w: World, patience: nat)
      returns (r: FileResult)
    requires Good(c.vol, c.View()) && b + n <= |c.vol.disk(addr)| && at + n <= buf.Length
    modifies c, c.pool, c.htable, buf
    ensures SameRefs(old(c.View()), c.View())
    ensures Good(c.vol, c.View()) || (r.Fails? && Forgetful(c.vol, c.View()))
    ensures r.Done? ==> forall k :: 0 <= k < buf.Length ==>
      buf[k] == if at <= k < at + n then c.vol.disk(addr)[b + (k - at)] else old(buf[k])
    ensures !r.Done? ==> buf[..] == old(buf[..])
    ensures r.Done? ==> c.nbRef == old(c.nbRef) && addr <= c.vol.volsize
    ensures Stuck(c.vol, old(c.View()), addr) ==> r.StillRetrying?
    ensures w.willing && r.StillRetrying? ==> Stuck(c.vol, old(c.View()), addr)
    ensures r.Fails? ==> Cause(c.vol, old(c.View()), w, addr, r.errno)
    ensures r.Done? ==> NoWorse(old(c.View()), c.View(), w)
    ensures Warm(c.vol, old(c.View()), addr) ==> r.Done? && PassedBy(c.vol, old(c.View()), c.View(), addr)
  {
    hide Release, NoWorse, Cause, Warm, FoundBy, Find, Stuck, Forgetful;
    ghost var s := c.View();
    var got := ReadChunk(c, addr, w, patience);
    if got.Retrying? { return StillRetrying; }
    if got.Failed? { return Fails(got.errno); }
    CopyBytes(buf, at, c.pool[got.id].buffer, b, n);
    ghost var s1 := c.View();
    ReleaseBalance(c.vol, s1, got.id);
    ReleaseLends(c.vol, s1, got.id);
    GivenBackNoWorse(c.vol, s1, got.id, w);
    if Warm(c.vol, s, addr) { FoundPassed(c.vol, s, s1, got.id, addr); }
    c.Drop(got.id);
    NoWorseTransitive(s, s1, c.View(), w);
    BalanceTransitive(s, s1, c.View(), addr, 1, -1);
    LendsRefs(c.vol, s, c.View());
    r := Done;
  }

  /** The next byte to read is byte `byt` of the container's chunk `chk`. */
  ghost predicate At(cs: nat, next: nat, chk: nat, byt: nat) {
    next == chk * cs + byt && byt < cs
  }

  lemma AtStart(cs: nat, pos: nat)
    requires 0 < cs
    ensures At(cs, pos, pos / cs, pos % cs)
  {
  }

  lemma AtNext(cs: nat, next: nat, chk: nat, byt: nat)
    requires At(cs, next, chk, byt)
    ensures At(cs, next + (cs - byt), chk + 1, 0)
  {
    assert (chk + 1) * cs == chk * cs + cs;
  }

  lemma InVolume(cs: nat, next: nat, chk: nat, byt: nat, volsize: nat)
    requires At(cs, next, chk, byt) && chk <= volsize
    ensures next + (cs - byt) <= (volsize + 1) * cs
  {
    Arith.MulMono(chk + 1, volsize + 1, cs);
    assert (chk + 1) * cs == chk * cs + cs;
  }

  lemma SameRefsNone(s: State)
    ensures SameRefs(s, s)
  {}

  lemma SameRefsTransitive(s: State, s1: State, s2: State)
    requires SameRefs(s, s1) && SameRefs(s1, s2)
    ensures SameRefs(s, s2)
  {}

  /** Devices and token pool are willing, some buffer is not referenced, and nothing stands in the
      way of reading the chunks of the range. */
  ghost predicate AllFine(v: Vol, s: State, w: World, cs: nat, f: File, offset: nat, len: nat)
    requires 0 < cs
  {
    w.willing && s.nbRef < |s.entries| && forall a: nat :: Touches(cs, f, offset, len, a) ==> Fine(v, s, w, a)
  }

  /** All chunks of the range are found in the cache if they are read one after the other. */
  ghost predicate RangeReady(v: Vol, s: State, cs: nat, f: File, offset: nat, len: nat)
    requires 0 < cs && 0 < len
  {
    ReadyFrom(v, s, cs, f, offset, len, (f.offset + offset) / cs)
  }

  /** So are those from chunk `chk` of the container on. */
  ghost predicate ReadyFrom(v: Vol, s: State, cs: nat, f: File, offset: nat, len: nat, chk: nat)
    requires 0 < cs && 0 < len
  {
    var last := ChunkNo(cs, f, offset + (len - 1));
    Ranged(v, s) && f.chunk + chk <= last && Ready(v, s, f.chunk + chk, last)
  }

  lemma ReadyWarm(v: Vol, s: State, cs: nat, f: File, offset: nat, len: nat, chk: nat)
    requires 0 < cs && 0 < len && ReadyFrom(v, s, cs, f, offset, len, chk)
    ensures Ranged(v, s) && Warm(v, s, f.chunk + chk)
  {
    hide Warm;
  }

  lemma ReadyNext(v: Vol, s: State, s1: State, cs: nat, f: File, offset: nat, len: nat, done: nat, chk: nat, byt: nat)
    requires 0 < cs && Good(v, s) && At(cs, f.offset + offset + done, chk, byt) && done + (cs - byt) < len
    requires ReadyFrom(v, s, cs, f, offset, len, chk) && PassedBy(v, s, s1, f.chunk + chk)
    ensures ReadyFrom(v, s1, cs, f, offset, len, chk + 1)
  {
    hide Warm, Aread, Release, Find, Pressed, EntryOk;
    var last := ChunkNo(cs, f, offset + (len - 1));
    AtNext(cs, f.offset + offset + done, chk, byt);
    QuotientMono(cs, f.offset + offset + done + (cs - byt), f.offset + (offset + (len - 1)), chk + 1, 0);
    assert Warm(v, s, f.chunk + chk);
    var dev: nat -> nat, tokenOk: bool :|
      var mid := Aread(v, s, f.chunk + chk, dev, tokenOk).0;
      Ranged(v, mid) && match Find(v, s, f.chunk + chk)
        case Some(i) => i < |mid.entries| && s1 == Release(v, mid, i)
        case None => false;
    ReadyStep(v, s, f.chunk + chk, last, dev, tokenOk);
  }

  lemma CopiedNone(v: Vol, cs: nat, f: File, offset: nat, was: seq<Byte>)
    requires 0 < cs && forall a :: |v.disk(a)| == cs
    ensures Copied(v, cs, f, offset, was, was, 0)
  {}

  lemma CopiedRest(v: Vol, cs: nat, f: File, offset: nat, was: seq<Byte>, now: seq<Byte>, n: nat, len: nat)
    requires 0 < cs && (forall a :: |v.disk(a)| == cs) && n <= len <= |was|
    requires Copied(v, cs, f, offset, was, now, n)
    ensures |now| == |was| && now[len..] == was[len..]
  {
    hide FileByte;
  }

  /** Between two pieces of a read: nothing is held, nothing has become broken but by a failing
      request, and what was ready still is. */
  ghost predicate Reading(v: Vol, s0: State, s: State, w: World, cs: nat, f: File, offset: nat, len: nat, done: nat,
                          chk: nat)
    requires 0 < cs
  {
    && Good(v, s) && Ranged(v, s) && SameRefs(s0, s) && NoWorse(s0, s, w)
    && s.nbRef == s0.nbRef && |s.entries| == |s0.entries|
    && (done < len && RangeReady(v, s0, cs, f, offset, len) ==> ReadyFrom(v, s, cs, f, offset, len, chk))
  }

  lemma ReadingStart(v: Vol, s: State, w: World, cs: nat, f: File, offset: nat, len: nat)
    requires Good(v, s) && 0 < cs
    ensures Reading(v, s, s, w, cs, f, offset, len, 0, (f.offset + offset) / cs)
  {
    hide Good, NoWorse, ReadyFrom;
    GoodRanged(v, s);
    NoWorseNone(s, w);
  }

  lemma ReadingGood(v: Vol, s0: State, s: State, w: World, cs: nat, f: File, offset: nat, len: nat, done: nat, chk: nat)
    requires 0 < cs && Reading(v, s0, s, w, cs, f, offset, len, done, chk)
    ensures Good(v, s) && Ranged(v, s) && SameRefs(s0, s) && s.nbRef == s0.nbRef && |s.entries| == |s0.entries|
    ensures done < len && RangeReady(v, s0, cs, f, offset, len) ==> Warm(v, s, f.chunk + chk)
  {
    hide Good, NoWorse, ReadyFrom, RangeReady;
    if done < len && RangeReady(v, s0, cs, f, offset, len) { ReadyWarm(v, s, cs, f, offset, len, chk); }
  }

  /** How the read of a range that is admitted ends: if it fails, there is a cause for some chunk of the
      range; so it succeeds if nothing stands in the way, or if the chunks are found in the cache. */
  ghost predicate Ended(v: Vol, s0: State, s1: State, w: World, cs: nat, f: File, offset: nat, len: nat, r: FileResult)
    requires 0 < cs
  {
    && SameRefs(s0, s1) && (Good(v, s1) || (r.Fails? && Forgetful(v, s1)))
    && (w.willing && s0.nbRef < |s0.entries| ==> !r.StillRetrying?)
    && (r.Fails? ==> exists a: nat :: Touches(cs, f, offset, len, a) && Cause(v, s0, w, a, r.errno))
    && (AllFine(v, s0, w, cs, f, offset, len) ==> r.Done?)
    && (len == 0 || RangeReady(v, s0, cs, f, offset, len) ==> r.Done?)
  }

  lemma ReadingDone(v: Vol, s0: State, s: State, w: World, cs: nat, f: File, offset: nat, len: nat, chk: nat)
    requires 0 < cs && Reading(v, s0, s, w, cs, f, offset, len, len, chk)
    ensures Ended(v, s0, s, w, cs, f, offset, len, Done)
  {}

  /** A piece was read. */
  lemma ReadingNext(v: Vol, s0: State, s: State, s1: State, w: World, cs: nat, f: File, offset: nat, len: nat,
                    done: nat, n: nat, chk: nat, byt: nat)
    requires 0 < cs && Reading(v, s0, s, w, cs, f, offset, len, done, chk) && done < len
    requires At(cs, f.offset + offset + done, chk, byt) && n == if cs - byt < len - done then cs - byt else len - done
    requires Good(v, s1) && SameRefs(s, s1) && NoWorse(s, s1, w) && s1.nbRef == s.nbRef && |s1.entries| == |s.entries|
    requires Ranged(v, s) && (Warm(v, s, f.chunk + chk) ==> PassedBy(v, s, s1, f.chunk + chk))
    ensures Reading(v, s0, s1, w, cs, f, offset, len, done + n, chk + 1)
  {
    hide Good, NoWorse, SameRefs, RangeReady, ReadyFrom, Warm, PassedBy;
    GoodRanged(v, s1);
    SameRefsTransitive(s0, s, s1);
    NoWorseTransitive(s0, s, s1, w);
    if done + n < len && RangeReady(v, s0, cs, f, offset, len) {
      ReadyWarm(v, s, cs, f, offset, len, chk);
      ReadyNext(v, s, s1, cs, f, offset, len, done, chk, byt);
    }
  }

  /** A piece could not be read. */
  lemma ReadingEnds(v: Vol, s0: State, s: State, s1: State, w: World, cs: nat, f: File, offset: nat, len: nat,
                    done: nat, chk: nat, byt: nat, r: FileResult)
    requires 0 < cs && Reading(v, s0, s, w, cs, f, offset, len, done, chk) && done < len && !r.Done?
    requires At(cs, f.offset + offset + done, chk, byt) && SameRefs(s, s1) && Ranged(v, s)
    requires !Warm(v, s, f.chunk + chk) && (r.Fails? ==> Cause(v, s, w, f.chunk + chk, r.errno))
    requires w.willing && r.StillRetrying? ==> Stuck(v, s, f.chunk + chk)
    requires Good(v, s1) || (r.Fails? && Forgetful(v, s1))
    ensures Ended(v, s0, s1, w, cs, f, offset, len, r)
  {
    hide Good, NoWorse, SameRefs, RangeReady, ReadyFrom, Warm, Cause, Fine, Touches, Forgetful;
    var a := f.chunk + chk;
    SameRefsTransitive(s0, s, s1);
    PieceTouches(cs, f, offset, len, done, chk, byt);
    if RangeReady(v, s0, cs, f, offset, len) { ReadyWarm(v, s, cs, f, offset, len, chk); }
    if r.Fails? {
      CauseBefore(v, s0, s, w, a, r.errno);
      if Fine(v, s0, w, a) { FineNoCause(v, s0, w, a, r.errno); }
    }
  }

  /** The copy loop. */
  method ReadRange(c: Cache, cs: nat, f: File, offset: nat, buf: array<Byte>, len: nat, w: World, patience: nat)
      returns (r: FileResult)
    requires Good(c.vol, c.View()) && 0 < cs && forall a :: |c.vol.disk(a)| == cs
    requires len <= buf.Length
    modifies c, c.pool, c.htable, buf
    ensures Ended(c.vol, old(c.View()), c.View(), w, cs, f, offset, len, r)
    ensures r.Done? ==> buf[..] == Slice(c.vol, cs, f, offset, len) + old(buf[len..])
    ensures r.Done? && 0 < len ==> f.offset + offset + len <= (c.vol.volsize + 1) * cs
    ensures buf[len..] == old(buf[len..])
  {
    hide Good, At, FileByte, Cause, Touches, SameRefs, Warm, RangeReady, AllFine, Copied, Reading, Ended, Forgetful;
    hide Stuck, Slice, NoWorse, PassedBy;
    ghost var s0 := c.View();
    var pos: nat := f.offset + offset;
    var chk: nat, byt: nat := pos / cs, pos % cs;
    AtStart(cs, pos);
    ReadingStart(c.vol, s0, w, cs, f, offset, len);
    CopiedNone(c.vol, cs, f, offset, buf[..]);
    var left: nat, done: nat := len, 0;
    while 0 < left
      invariant done + left == len
      invariant byt < cs && (0 < left ==> At(cs, pos + done, chk, byt))
      invariant Reading(c.vol, s0, c.View(), w, cs, f, offset, len, done, chk)
      invariant 0 < done ==> pos + done <= (c.vol.volsize + 1) * cs
      invariant Copied(c.vol, cs, f, offset, old(buf[..]), buf[..], done)
    {
      var n := if cs - byt < left then cs - byt else left;
      ghost var mid := buf[..];
      ghost var s := c.View();
      ReadingGood(c.vol, s0, s, w, cs, f, offset, len, done, chk);
      r := ReadPiece(c, f.chunk + chk, byt, buf, done, n, w, patience);
      if !r.Done? {
        ReadingEnds(c.vol, s0, s, c.View(), w, cs, f, offset, len, done, chk, byt, r);
        CopiedRest(c.vol, cs, f, offset, old(buf[..]), mid, done, len);
        return;
      }
      ReadingNext(c.vol, s0, s, c.View(), w, cs, f, offset, len, done, n, chk, byt);
      CopiedMore(c.vol, cs, f, offset, old(buf[..]), mid, buf[..], done, n, chk, byt);
      AtNext(cs, pos + done, chk, byt);
      InVolume(cs, pos + done, chk, byt, c.vol.volsize);
      left := left - n;
      chk, byt := chk + 1, 0;
      done := done + n;
    }
    CopiedSlice(c.vol, cs, f, offset, old(buf[..]), buf[..], len);
    CopiedRest(c.vol, cs, f, offset, old(buf[..]), buf[..], len, len);
    ReadingDone(c.vol, s0, c.View(), w, cs, f, offset, len, chk);
    r := Done;
  }

  /** `shfs_fio_cache_read`: copies `len` bytes of the file from `offset` on into `buf`. With
      willing devices and a buffer that nobody references it ends by itself. */
  method CacheReadFile(c: Cache, cs: nat, f: File, offset: nat, buf: array<Byte>, len: nat, w: World,
                       patience: nat)
      returns (r: FileResult)
    requires Good(c.vol, c.View()) && 0 < cs && forall a :: |c.vol.disk(a)| == cs
    requires len <= buf.Length
    modifies c, c.pool, c.htable, buf
    ensures !InBounds(f, offset, len) ==> r == Fails(EINVAL) && c.View() == old(c.View()) && buf[..] == old(buf[..])
    ensures Refused(f, offset, len) ==> r == Fails(EINVAL) && c.View() == old(c.View()) && buf[..] == old(buf[..])
    ensures r.Done? ==> Within(f, offset, len) || WORD <= offset + len
    ensures r.Done? && (c.vol.volsize + 1) * cs < WORD ==> Within(f, offset, len)
    ensures r.Done? ==> buf[..] == Slice(c.vol, cs, f, offset, len) + old(buf[len..])
    ensures buf[len..] == old(buf[len..])
    ensures Good(c.vol, c.View()) || (r.Fails? && Forgetful(c.vol, c.View()))
    ensures SameRefs(old(c.View()), c.View())
    ensures w.willing && old(c.nbRef) < c.pool.Length ==> !r.StillRetrying?
    ensures r.Fails? && InBounds(f, offset, len) ==>
      exists a: nat :: Touches(cs, f, offset, len, a) && Cause(c.vol, old(c.View()), w, a, r.errno)
    ensures InBounds(f, offset, len) && AllFine(c.vol, old(c.View()), w, cs, f, offset, len) ==> r.Done?
    ensures InBounds(f, offset, len) && (0 < len ==> RangeReady(c.vol, old(c.View()), cs, f, offset, len)) ==> r.Done?
  {
    hide Good, FileByte, InBounds, Cause, Touches, SameRefs, RangeReady, AllFine, Within, Forgetful;
    RefusedFails(f, offset, len);
    if !InBounds(f, offset, len) {
      SameRefsNone(c.View());
      return Fails(EINVAL);
    }
    r := ReadRange(c, cs, f, offset, buf, len, w, patience);
  }

  /** `shfs_fio_read`: the same without the cache, through a buffer of its own. `memory` says whether
      that can be allocated, and `errnos(a)` how the transfer of chunk `a` ends. */
  method ReadFile(v: Vol, cs: nat, f: File, offset: nat, buf: array<Byte>, len: nat, memory: bool, errnos: nat -> nat)
      returns (r: FileResult)
    requires 0 < cs && forall a :: |v.disk(a)| == cs
    requires len <= buf.Length
    modifies buf
    ensures !InBounds(f, offset, len) ==> r == Fails(EINVAL) && buf[..] == old(buf[..])
    ensures Refused(f, offset, len) ==> r == Fails(EINVAL) && buf[..] == old(buf[..])
    ensures r.Done? ==> Within(f, offset, len) || WORD <= offset + len
    ensures r.Done? ==> buf[..] == Slice(v, cs, f, offset, len) + old(buf[len..])
    ensures buf[len..] == old(buf[len..])
    ensures r.Done? <==>
      InBounds(f, offset, len) && memory && forall a: nat :: Touches(cs, f, offset, len, a) ==> errnos(a) == 0
    ensures InBounds(f, offset, len) && !memory ==> r == Fails(ENOMEM)
    ensures InBounds(f, offset, len) && memory && !r.Done? ==> exists a: nat ::
      && Touches(cs, f, offset, len, a) && errnos(a) != 0 && r == Fails(errnos(a))
      && forall b: nat :: Touches(cs, f, offset, len, b) && b < a ==> errnos(b) == 0
  {
    hide At, FileByte, InBounds, Touches;
    RefusedFails(f, offset, len);
    if !InBounds(f, offset, len) { return Fails(EINVAL); }
    if !memory { return Fails(ENOMEM); }
    var pos: nat := f.offset + offset;
    var chk: nat, byt: nat := pos / cs, pos % cs;
    AtStart(cs, pos);
    TouchesNone(cs, f, offset);
    var left: nat, done: nat := len, 0;
    while 0 < left
      invariant done + left == len
      invariant byt < cs && (0 < left ==> At(cs, pos + done, chk, byt))
      invariant Copied(v, cs, f, offset, old(buf[..]), buf[..], done)
      invariant forall a: nat :: Touches(cs, f, offset, done, a) ==> errnos(a) == 0
    {
      PieceTouches(cs, f, offset, len, done, chk, byt);
      TouchesBefore(cs, f, offset, len, done, chk, byt);
      if errnos(f.chunk + chk) != 0 { return Fails(errnos(f.chunk + chk)); }
      var chunk := v.disk(f.chunk + chk);
      var n := if cs - byt < left then cs - byt else left;
      ghost var mid := buf[..];
      CopyBytes(buf, done, chunk, byt, n);
      CopiedMore(v, cs, f, offset, old(buf[..]), mid, buf[..], done, n, chk, byt);
      AtNext(cs, pos + done, chk, byt);
      TouchesMore(cs, f, offset, done, n, chk, byt);
      left := left - n;
      chk, byt := chk + 1, 0;
      done := done + n;
    }
    CopiedSlice(v, cs, f, offset, old(buf[..]), buf[..], len);
    r := Done;
  }

  /** The next byte to read lies in the chunk that is read next. */
  lemma PieceTouches(cs: nat, f: File, offset: nat, len: nat, done: nat, chk: nat, byt: nat)
    requires 0 < cs && At(cs, f.offset + offset + done, chk, byt) && done < len
    ensures Touches(cs, f, offset, len, f.chunk + chk)
  {
    ChunkOf(cs, f.offset + offset + done, chk, byt, 0);
    assert ChunkNo(cs, f, offset + done) == f.chunk + chk;
  }

  lemma TouchesNone(cs: nat, f: File, offset: nat)
    requires 0 < cs
    ensures forall a: nat :: !Touches(cs, f, offset, 0, a)
  {}

  lemma TouchesBefore(cs: nat, f: File, offset: nat, len: nat, done: nat, chk: nat, byt: nat)
    requires 0 < cs && At(cs, f.offset + offset + done, chk, byt)
    ensures forall a: nat :: Touches(cs, f, offset, len, a) && a < f.chunk + chk ==> Touches(cs, f, offset, done, a)
  {
    forall a: nat | Touches(cs, f, offset, len, a) && a < f.chunk + chk
      ensures Touches(cs, f, offset, done, a)
    {
      var j :| offset <= j < offset + len && ChunkNo(cs, f, j) == a;
      if offset + done <= j { QuotientMono(cs, f.offset + offset + done, f.offset + j, chk, byt); }
    }
  }

  lemma QuotientMono(cs: nat, x: nat, y: nat, chk: nat, byt: nat)
    requires At(cs, x, chk, byt) && x <= y
    ensures chk <= y / cs
  {
    assert y == y / cs * cs + y % cs;
    if y / cs < chk { Arith.MulMono(y / cs + 1, chk, cs); }
  }

  lemma TouchesMore(cs: nat, f: File, offset: nat, done: nat, n: nat, chk: nat, byt: nat)
    requires 0 < cs && At(cs, f.offset + offset + done, chk, byt) && byt + n <= cs
    ensures forall a: nat :: Touches(cs, f, offset, done + n, a) ==>
      Touches(cs, f, offset, done, a) || a == f.chunk + chk
  {
    forall a: nat | Touches(cs, f, offset, done + n, a)
      ensures Touches(cs, f, offset, done, a) || a == f.chunk + chk
    {
      var j :| offset <= j < offset + (done + n) && ChunkNo(cs, f, j) == a;
      if offset + done <= j { ChunkOf(cs, f.offset + offset + done, chk, byt, j - (offset + done)); }
    }
  }
}
