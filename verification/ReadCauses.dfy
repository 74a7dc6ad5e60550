/** Why reading a chunk through the cache can fail. */
module ReadCauses {
  import opened Types
  import opened CacheSpec
  import opened CacheInv
  import opened CacheRuns
  import opened CacheMeans
  import opened CacheWindow
  import opened CacheWarm

  /** What the devices and the token pool may do. A request for chunk `a` is refused with error `e`
      only if `refuses(a, e)`, and completed with an error only if `fails(a)`. If they are `willing`,
      tokens are left, and a device is short of request objects only while requests are in
      flight. */
  datatype World = World(willing: bool, refuses: (nat, nat) -> bool, fails: nat -> bool)

  /** The chunk is in the cache, but its request has failed. */
  ghost predicate Broken(s: State, a: nat) {
    exists j: nat :: HasIdle(s, a, j) && s.entries[j].invalid
  }

  /** Why a read of chunk `a` fails with `errno`: the volume is not mounted, the chunk is not on it, a
      device refused it, its request failed, or had failed before. */
  ghost predicate Cause(v: Vol, s: State, w: World, a: nat, errno: nat) {
    if !v.mounted then errno == ENODEV
    else if a == 0 || v.volsize < a then errno == EINVAL
    else w.refuses(a, errno) || w.fails(a) || (errno == EIO && Broken(s, a))
  }

  /** Nothing stands in the way of reading chunk `a`. */
  ghost predicate Fine(v: Vol, s: State, w: World, a: nat) {
    v.mounted && 0 < a <= v.volsize && !w.fails(a) && !Broken(s, a) && forall e :: !w.refuses(a, e)
  }

  lemma FineNoCause(v: Vol, s: State, w: World, a: nat, errno: nat)
    requires Fine(v, s, w, a)
    ensures !Cause(v, s, w, a, errno)
  {}

  /** From `s` to `s1` no chunk has become broken but by a failing request. */
  ghost predicate NoWorse(s: State, s1: State, w: World) {
    forall a: nat :: a != 0 && Broken(s1, a) ==> Broken(s, a) || w.fails(a)
  }

  lemma NoWorseNone(s: State, w: World)
    ensures NoWorse(s, s, w)
  {}

  lemma NoWorseTransitive(s: State, s1: State, s2: State, w: World)
    requires NoWorse(s, s1, w) && NoWorse(s1, s2, w)
    ensures NoWorse(s, s2, w)
  {}

  lemma CauseBefore(v: Vol, s: State, s1: State, w: World, a: nat, errno: nat)
    requires NoWorse(s, s1, w) && Cause(v, s1, w, a, errno)
    ensures Cause(v, s, w, a, errno)
  {}

  lemma RequestNoWorse(v: Vol, s: State, addr: nat, dev: nat -> nat, tokenOk: bool, w: World)
    requires Good(v, s)
    ensures NoWorse(s, Aread(v, s, addr, dev, tokenOk).0, w)
  {
    hide Aread;
    var s1 := Aread(v, s, addr, dev, tokenOk).0;
    forall a: nat | a != 0 && Broken(s1, a)
      ensures Broken(s, a)
    {
      var j: nat :| HasIdle(s1, a, j) && s1.entries[j].invalid;
      RequestBrings(v, s, addr, dev, tokenOk, a, j);
    }
  }

  lemma CompletionNoWorse(v: Vol, s: State, step: Step, w: World)
    requires Good(v, s) && step.DoComplete? && Enabled(s, step)
    requires !step.ok ==> w.fails(s.entries[step.id].t.value.target)
    ensures NoWorse(s, Next(v, s, step), w)
  {
    var i := step.id;
    assert EntryOk(v, s, i, |s.entries|);
    CompletionMeans(v, s, i, step.ok, step.junk);
    hide Next, EntryOk;
    var s1 := Next(v, s, step);
    forall a: nat | a != 0 && Broken(s1, a)
      ensures Broken(s, a) || w.fails(a)
    {
      var j: nat :| HasIdle(s1, a, j) && s1.entries[j].invalid;
      if j != i { assert HasIdle(s, a, j); }
    }
  }

  lemma GivenBackNoWorse(v: Vol, s: State, i: nat, w: World)
    requires Good(v, s) && Enabled(s, DoRelease(i)) && !s.entries[i].invalid
    ensures NoWorse(s, Release(v, s, i), w)
  {
    GivenBackValid(v, s, i);
    SameFree(v, s, i);
    hide Release;
    var s1 := Release(v, s, i);
    forall a: nat | a != 0 && Broken(s1, a)
      ensures Broken(s, a)
    {
      var j: nat :| HasIdle(s1, a, j) && s1.entries[j].invalid;
      assert HasIdle(s, a, j);
    }
  }

  lemma SameFree(v: Vol, s: State, i: nat)
    requires Ranged(v, s) && i < |s.entries| && !s.entries[i].invalid
    ensures Release(v, s, i).free == s.free
  {}

  /** Why a request for a chunk is refused for good. */
  lemma RefusedCause(v: Vol, s: State, addr: nat, dev: nat -> nat, tokenOk: bool, w: World)
    requires Good(v, s) && Aread(v, s, addr, dev, tokenOk).1.Error?
    requires dev(addr) != 0 && dev(addr) != EAGAIN ==> w.refuses(addr, dev(addr))
    ensures var e := Aread(v, s, addr, dev, tokenOk).1.errno;
      e != EAGAIN ==> Cause(v, s, w, addr, e)
  {
    if v.mounted && 0 < addr <= v.volsize {
      hide Aread, EntryOk;
      AreadExact(v, s, addr, dev, tokenOk);
    }
  }

  /** A request that is answered at once with an entry without data: the chunk was broken before. */
  lemma HitCause(v: Vol, s: State, addr: nat, dev: nat -> nat, tokenOk: bool, w: World)
    requires Good(v, s)
    ensures var (s1, r) := Aread(v, s, addr, dev, tokenOk);
      r.Hit? && r.id < |s1.entries| && s1.entries[r.id].invalid ==> Cause(v, s, w, addr, EIO)
  {
    hide Aread, EntryOk;
    AreadKeeps(v, s, addr, dev, tokenOk);
    var (s1, r) := Aread(v, s, addr, dev, tokenOk);
    if r.Hit? {
      RequestBrings(v, s, addr, dev, tokenOk, addr, r.id);
      assert HasIdle(s1, addr, r.id);
    }
  }
}
