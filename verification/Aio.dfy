/** Asynchronous chunk I/O: one token stands for the requests of all stripes. */
module Aio {
  import opened Types

  /** What happens to a token: a request is issued, or one is completed with a result. */
  datatype Event = Issue | Done(ret: int)

  /** `_shfs_aio_token`; `fired` are the results that the callback could read, one for each
      time it was called. */
  datatype Token = Token(infly: nat, ret: int, cb: bool, fired: seq<int>)

  /** A token as it comes from the pool, with a callback or without. */
  function Picked(cb: bool): Token {
    Token(0, 0, cb, [])
  }

  /** `_shfs_aio_cb`, and the counting of issued requests in `shfs_aio_chunk`. */
  function Handle(t: Token, e: Event): Token
    requires e.Done? ==> 0 < t.infly
  {
    match e
    case Issue => t.(infly := t.infly + 1)
    case Done(r) =>
      var ret := if r < 0 then r else t.ret;
      t.(ret := ret, infly := t.infly - 1, fired := if t.infly == 1 && t.cb then t.fired + [ret] else t.fired)
  }

  // ---------------------------------------------------------------- traces

  /** Requests that are issued but not completed. */
  function Open(es: seq<Event>): int {
    if es == [] then 0
    else Open(es[..|es| - 1]) + if es[|es| - 1].Issue? then 1 else -1
  }

  /** Only issued requests are completed. */
  ghost predicate Trace(es: seq<Event>) {
    forall k :: 0 <= k <= |es| ==> 0 <= Open(es[..k])
  }

  /** The result of the last request that failed. */
  function LastError(es: seq<Event>): int {
    if es == [] then 0
    else
      var e := es[|es| - 1];
      if e.Done? && e.ret < 0 then e.ret else LastError(es[..|es| - 1])
  }

  /** It is the result of the failed request that was completed last. */
  lemma {:induction false} LastErrorIs(es: seq<Event>, k: nat)
    requires k < |es| && es[k].Done? && es[k].ret < 0
    requires forall j :: k < j < |es| && es[j].Done? ==> 0 <= es[j].ret
    ensures LastError(es) == es[k].ret
  {
    if k < |es| - 1 { LastErrorIs(es[..|es| - 1], k); }
  }

  lemma {:induction false} LastErrorExact(es: seq<Event>)
    ensures LastError(es) <= 0
    ensures LastError(es) < 0 <==> exists k :: 0 <= k < |es| && es[k].Done? && es[k].ret < 0
  {
    if es != [] {
      var d := es[..|es| - 1];
      LastErrorExact(d);
      if exists k :: 0 <= k < |d| && d[k].Done? && d[k].ret < 0 {
        var k :| 0 <= k < |d| && d[k].Done? && d[k].ret < 0;
        assert es[k].Done? && es[k].ret < 0;
      }
      assert forall k :: 0 <= k < |d| ==> d[k] == es[k];
    }
  }

  lemma TracePrefix(es: seq<Event>, n: nat)
    requires Trace(es) && n <= |es|
    ensures Trace(es[..n])
  {
    assert forall k :: 0 <= k <= n ==> es[..n][..k] == es[..k];
  }

  /** What becomes of a token in a trace. */
  ghost function Play(cb: bool, es: seq<Event>): (t: Token)
    requires Trace(es)
    ensures t.infly == Open(es) && t.ret == LastError(es) && t.cb == cb
  {
    if es == [] then Picked(cb)
    else
      TracePrefix(es, |es| - 1);
      assert es[..|es|] == es;
      Handle(Play(cb, es[..|es| - 1]), es[|es| - 1])
  }

  /** All requests issued so far are completed in between. */
  ghost predicate Gap(es: seq<Event>, k: int) {
    0 < k < |es| && Open(es[..k]) == 0
  }

  /** The callback is called each time the last outstanding request is completed: never
      before that in a trace without gaps, and once at its end. */
  lemma {:induction false} FiredNone(cb: bool, es: seq<Event>)
    requires Trace(es) && (es == [] || 0 < Open(es)) && forall k :: !Gap(es, k)
    ensures Play(cb, es).fired == []
  {
    if es != [] {
      var d := es[..|es| - 1];
      TracePrefix(es, |es| - 1);
      assert forall k :: 0 <= k <= |d| ==> d[..k] == es[..k];
      assert es[..|es|] == es;
      if d != [] && Open(d) == 0 { assert Gap(es, |d|); }
      forall k ensures !Gap(d, k) { assert Gap(d, k) ==> Gap(es, k); }
      FiredNone(cb, d);
    }
  }

  /** The callback has been called at least as often as there were gaps to call it in. */
  lemma {:induction false} FiredInGap(es: seq<Event>, k: nat)
    requires Trace(es) && 0 < k <= |es| && Open(es[..k]) == 0
    ensures 1 <= |Play(true, es).fired|
    ensures k < |es| && Open(es) == 0 ==> 2 <= |Play(true, es).fired|
  {
    var d := es[..|es| - 1];
    TracePrefix(es, |es| - 1);
    assert es[..|es|] == es;
    if k < |es| {
      assert d[..k] == es[..k];
      FiredInGap(d, k);
    } else {
      assert Open(d) == 1;
    }
  }

  /** When all requests are completed, the callback has been called exactly once, and then
      with an error exactly if some request failed, precisely if at no time before the end all
      requests issued so far were completed. */
  lemma FiredOnce(es: seq<Event>)
    requires Trace(es) && es != [] && Open(es) == 0
    ensures |Play(true, es).fired| == 1 <==> forall k :: !Gap(es, k)
    ensures |Play(true, es).fired| == 1 ==> Play(true, es).fired == [LastError(es)]
  {
    if forall k :: !Gap(es, k) {
      var d := es[..|es| - 1];
      TracePrefix(es, |es| - 1);
      assert forall k :: 0 <= k <= |d| ==> d[..k] == es[..k];
      assert es[..|es|] == es;
      assert 0 <= Open(d);
      if d != [] { assert !Gap(es, |d|); }
      forall k ensures !Gap(d, k) { assert Gap(d, k) ==> Gap(es, k); }
      FiredNone(true, d);
    } else {
      var k :| Gap(es, k);
      FiredInGap(es, k);
    }
  }

  /** The setup of `n` requests, followed by their completions in any order. */
  ghost predicate SetUp(es: seq<Event>, n: nat) {
    n <= |es| && (forall k :: 0 <= k < n ==> es[k].Issue?) && (forall k :: n <= k < |es| ==> es[k].Done?)
  }

  lemma {:induction false} SetUpOpen(es: seq<Event>, n: nat)
    requires SetUp(es, n)
    ensures Open(es) == n - (|es| - n)
  {
    if |es| == n {
      if n > 0 { SetUpOpen(es[..n - 1], n - 1); }
    } else {
      SetUpOpen(es[..|es| - 1], n);
    }
  }

  lemma {:induction false} SetUpTrace(es: seq<Event>, n: nat)
    requires SetUp(es, n) && |es| <= 2 * n
    ensures Trace(es) && (forall k :: !Gap(es, k))
  {
    forall k | 0 <= k <= |es|
      ensures 0 <= Open(es[..k]) && (0 < k < |es| ==> 0 < Open(es[..k]))
    {
      SetUpOpen(es[..k], if k < n then k else n);
    }
  }

  /** Without completions during the setup, the callback of a token is called exactly once, when
      the last of at least one request is completed, and it can read an error exactly if some
      request failed. A token of no request never has its callback called. */
  lemma CompletedOnce(es: seq<Event>, n: nat)
    requires SetUp(es, n) && |es| <= 2 * n
    ensures Trace(es) && Play(true, es).fired == if |es| == 2 * n && 0 < n then [LastError(es)] else []
    ensures Play(true, es).infly == 2 * n - |es|
    ensures LastError(es) < 0 <==> exists k :: n <= k < |es| && es[k].Done? && es[k].ret < 0
  {
    SetUpTrace(es, n);
    SetUpOpen(es, n);
    LastErrorExact(es);
    if |es| == 2 * n && 0 < n { FiredOnce(es); } else { FiredNone(true, es); }
  }

  /** If a completion comes in while requests are still being set up, the callback can be
      called twice. */
  lemma FiredTwice(r: int, r1: int)
    ensures var es := [Issue, Done(r), Issue, Done(r1)]; Trace(es) && |Play(true, es).fired| >= 2
  {
    var a, b := [Issue], [Issue, Done(r)];
    var c, d := [Issue, Done(r), Issue], [Issue, Done(r), Issue, Done(r1)];
    Nothing();
    hide Trace, Play, Open;
    assert [] + [Issue] == a && a + [Done(r)] == b && b + [Issue] == c && c + [Done(r1)] == d && d[..2] == b;
    More(true, [], Issue);
    More(true, a, Done(r));
    More(true, b, Issue);
    More(true, c, Done(r1));
    FiredInGap(d, 2);
  }

  lemma Nothing()
    ensures Trace([]) && Open([]) == 0
  {}

  /** One more event. */
  lemma More(cb: bool, es: seq<Event>, e: Event)
    requires Trace(es)
    ensures Open(es + [e]) == Open(es) + if e.Issue? then 1 else -1
    ensures e.Issue? || 0 < Open(es) ==> Trace(es + [e]) && Play(cb, es + [e]) == Handle(Play(cb, es), e)
  {
    var d := es + [e];
    assert d[..|es|] == es && d[..|d|] == d;
    assert es[..|es|] == es;
    forall k | 0 <= k <= |es| ensures 0 <= Open(d[..k]) { assert d[..k] == es[..k]; }
  }

  // ---------------------------------------------------------------- in place

  const EBUSY := 16

  class AioToken {
    var infly: nat
    var ret: int
    var cb: bool
    /** What the callback could read, one for each time it was called. */
    ghost var fired: seq<int>
    /** The requests issued and completed so far. */
    ghost var log: seq<Event>

    ghost predicate Valid()
      reads this
    {
      Trace(log) && Play(cb, log) == Token(infly, ret, cb, fired)
    }

    /** `_aiotoken_pool_objinit`, and the callback that the caller wants. */
    constructor (cb: bool)
      ensures Valid() && this.cb == cb && log == []
    {
      infly, ret, this.cb := 0, 0, cb;
      fired, log := [], [];
    }

    /** `_shfs_aio_cb`. */
    method Complete(r: int)
      requires Valid() && 0 < infly
      modifies this
      ensures Valid() && log == old(log) + [Done(r)] && cb == old(cb)
      ensures Play(cb, log) == Handle(Play(cb, old(log)), Done(r))
    {
      More(cb, log, Done(r));
      log := log + [Done(r)];
      if r < 0 { ret := r; }
      infly := infly - 1;
      if infly == 0 {
        if cb { fired := fired + [ret]; }
      }
    }

    /** A request was issued. */
    method Issued()
      requires Valid()
      modifies this`infly, this`log
      ensures Valid() && log == old(log) + [Issue]
    {
      More(cb, log, Issue);
      log := log + [Issue];
      infly := infly + 1;
    }

    /** `shfs_aio_wait`: polls until every request is completed, the next ones with these results. */
    method Wait(results: nat -> int)
      requires Valid()
      modifies this
      ensures Valid() && infly == 0 && cb == old(cb)
      ensures |log| == |old(log)| + old(infly) && log[..|old(log)|] == old(log)
      ensures forall k :: |old(log)| <= k < |log| ==> log[k] == Done(results(k - |old(log)|))
      ensures !cb ==> fired == old(fired)
    {
      hide Trace, Play;
      ghost var n := |log|;
      var was := infly;
      while infly != 0
        invariant Valid() && cb == old(cb) && n <= |log| && |log| + infly == n + was && log[..n] == old(log)
        invariant forall k :: n <= k < |log| ==> log[k] == Done(results(k - n))
        invariant !cb ==> fired == old(fired)
        decreases infly
      {
        Complete(results(was - infly));
      }
    }
  }

  class Volume {
    var mounted: bool
    /** The tokens left in the pool. */
    var free: nat

    constructor (free: nat)
      ensures mounted && this.free == free
    {
      mounted, this.free := true, free;
    }

    /** `shfs_aio_chunk` for `n` stripes; no request is completed while it sets them up. `a` is what
        the devices answer, and `results` are those of the requests that are drained. */
    method AioChunk(n: nat, cb: bool, a: Attempt, results: nat -> int)
      returns (t: AioToken?, errno: int, ghost dropped: AioToken?)
      modifies this`free
      ensures match Refusal(n, mounted, old(free), a)
        case None =>
          && t != null && fresh(t) && t.Valid() && t.cb == cb && t.infly == n && SetUp(t.log, n) && |t.log| == n
          && free == old(free) - 1 && dropped == null
        case Some(e) => t == null && errno == e && free == old(free)
      ensures dropped != null ==> fresh(dropped) && dropped.Valid() && dropped.infly == 0 && dropped.fired == []
    {
      dropped := null;
      if !mounted { return null, ENODEV, null; }
      if !a.avail { return null, EAGAIN, null; }
      if free == 0 { return null, EAGAIN, null; }
      free := free - 1;
      var k := new AioToken(cb);
      for strp := 0 to n
        invariant fresh(k) && free == old(free) - 1
        invariant k.Valid() && k.cb == cb && |k.log| == strp && SetUp(k.log, strp) && strp <= a.failing
      {
        if strp == a.failing {
          SilentSetup(cb, k.log);
          k.cb := false;
          k.Wait(results);
          free := free + 1;
          return null, a.error + 1, k;
        }
        k.Issued();
      }
      SetUpOpen(k.log, n);
      t, errno := k, 0;
    }

    /** `shfs_aio_finalize`. */
    method Finalize(t: AioToken) returns (ret: int)
      requires t.Valid() && t.infly == 0
      modifies this`free
      ensures ret == LastError(t.log) && free == old(free) + 1
    {
      ret := t.ret;
      free := free + 1;
    }

    /** `shfs_io_chunk`: waits for the requests of `n` stripes. The devices answer attempt `k` with
        `answers(k)` and complete the requests with `results`. The attempt is repeated while a
        device is busy, at most `patience` times; anything else that refuses the transfer ends
        the call. */
    method IoChunk(n: nat, answers: nat -> Attempt, results: nat -> int, patience: nat)
      returns (ret: int, tries: nat, ghost log: seq<Event>)
      modifies this`free
      ensures free == old(free) && tries <= patience
      ensures forall k :: 0 <= k < tries ==> Refusal(n, mounted, old(free), answers(k)) == Some(EBUSY)
      ensures match Refusal(n, mounted, old(free), answers(tries))
        case Some(errno) => ret == -errno && log == [] && (errno == EBUSY ==> tries == patience)
        case None =>
          && SetUp(log, n) && |log| == 2 * n && ret == LastError(log)
          && (forall k :: 0 <= k < n ==> log[n + k] == Done(results(k)))
          && (ret == 0 <==> forall k :: 0 <= k < n ==> 0 <= results(k))
      ensures ret == -EAGAIN && log == [] <==> mounted && var a := answers(tries);
        !a.avail || old(free) == 0 || (a.failing < n && a.error + 1 == EAGAIN)
      ensures mounted && (old(free) == 0 || !answers(0).avail) ==> ret == -EAGAIN && tries == 0 && log == []
      ensures !mounted ==> ret == -ENODEV
      ensures ret <= 0 && (ret == 0 ==> mounted && SetUp(log, n) && |log| == 2 * n)
    {
      hide Trace, Play, LastError, SetUp;
      tries := 0;
      while true
        invariant free == old(free) && tries <= patience
        invariant forall k :: 0 <= k < tries ==> Refusal(n, mounted, old(free), answers(k)) == Some(EBUSY)
        invariant 0 < tries ==> Refusal(n, mounted, old(free), answers(0)) == Some(EBUSY)
        decreases patience - tries
      {
        var t, errno;
        ghost var dropped;
        t, errno, dropped := AioChunk(n, false, answers(tries), results);
        if t != null {
          ghost var issued := t.log;
          t.Wait(results);
          AllResults(issued, t.log, n, results);
          log := t.log;
          ret := Finalize(t);
          return;
        }
        if errno != EBUSY || tries == patience { return -errno, tries, []; }
        tries := tries + 1;
      }
    }
  }

  /** The last error is 0 exactly if no result is negative. */
  lemma AllResults(issued: seq<Event>, log: seq<Event>, n: nat, results: nat -> int)
    requires SetUp(issued, n) && |issued| == n && |log| == 2 * n && log[..n] == issued
    requires forall k :: n <= k < |log| ==> log[k] == Done(results(k - n))
    ensures SetUp(log, n) && LastError(log) <= 0
    ensures LastError(log) == 0 <==> forall k :: 0 <= k < n ==> 0 <= results(k)
    ensures forall k :: 0 <= k < n ==> log[n + k] == Done(results(k))
  {
    forall k | 0 <= k < n ensures log[k].Issue? { assert log[k] == log[..n][k]; }
    LastErrorExact(log);
    forall k | 0 <= k < n ensures log[n + k] == Done(results(k)) {}
  }

  /** How the devices answer an attempt: whether they seem to have enough request objects, which
      request cannot be set up, and the error number of that, less one. */
  datatype Attempt = Attempt(avail: bool, failing: nat, error: nat)

  /** Why an attempt at `n` stripes is refused. */
  function Refusal(n: nat, mounted: bool, free: nat, a: Attempt): Option<int> {
    if !mounted then Some(ENODEV)
    else if !a.avail || free == 0 then Some(EAGAIN)
    else if a.failing < n then Some(a.error + 1)
    else None
  }

  /** As long as requests are only issued, it does not matter whether there is a callback. */
  lemma {:induction false} SilentSetup(cb: bool, es: seq<Event>)
    requires SetUp(es, |es|) && Trace(es)
    ensures Play(cb, es) == Play(false, es).(cb := cb) && Play(cb, es).fired == []
  {
    if es != [] {
      TracePrefix(es, |es| - 1);
      assert es[..|es|] == es;
      SilentSetup(cb, es[..|es| - 1]);
    }
  }
}
