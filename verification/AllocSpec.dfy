/** The tools' volume allocator on intervals of chunks: which gap it finds, and why
    containers never overlap. */
module AllocSpec {

  const WORD := 0x1_0000_0000_0000_0000

  /** The chunks from `start` up to but not including `end`. */
  datatype Interval = Interval(start: nat, end: nat)

  function Max(a: nat, b: nat): nat {
    if a < b then b else a
  }

  /** The difference of two 64-bit words. */
  function Sub(a: nat, b: nat): nat {
    (a - b) % WORD
  }

  // ---------------------------------------------------------------- operations

  /** The number of leading entries that do not start after `start`. */
  function Before(s: seq<Interval>, start: nat): (k: nat)
    ensures k <= |s|
    ensures forall i :: 0 <= i < k ==> s[i].start <= start
    ensures k < |s| ==> start < s[k].start
  {
    if s == [] || start < s[0].start then 0 else 1 + Before(s[1..], start)
  }

  /** `shfs_alist_register`. */
  function Register(s: seq<Interval>, start: nat, len: nat): seq<Interval> {
    var k := Before(s, start);
    s[..k] + [Interval(start, start + len)] + s[k..]
  }

  /** The first entry equal to `e`, or the end. */
  function Position(s: seq<Interval>, e: Interval): (k: nat)
    ensures k <= |s| && (k < |s| ==> s[k] == e) && e !in s[..k]
  {
    if s == [] || s[0] == e then 0 else 1 + Position(s[1..], e)
  }

  /** `shfs_alist_unregister`: without the entry if there is one, otherwise unchanged. */
  function Unregister(s: seq<Interval>, start: nat, len: nat): seq<Interval> {
    var k := Position(s, Interval(start, start + len));
    if k < |s| then s[..k] + s[k + 1..] else s
  }

  /** From entry `j` on, the last entry of the run of entries that begin no later than their
      predecessor ends, and the highest end seen. */
  function Merge(s: seq<Interval>, j: nat, freeStart: nat): (r: (nat, nat))
    requires j < |s|
    ensures j <= r.0 < |s|
    decreases |s| - j
  {
    if j + 1 < |s| && s[j + 1].start <= s[j].end then Merge(s, j + 1, Max(freeStart, s[j + 1].end))
    else (j, freeStart)
  }

  /** `_shfs_alist_find_ff`, from entry `i` on. */
  function FirstFit(s: seq<Interval>, i: nat, end: nat, len: nat): nat
    decreases |s| - i
  {
    if |s| <= i then 0
    else
      var (j, freeStart) := Merge(s, i, s[i].end);
      var freeEnd := if j + 1 < |s| then s[j + 1].start else end;
      if j + 1 == |s| && freeEnd == freeStart then 0
      else if len <= Sub(freeEnd, freeStart) then freeStart
      else FirstFit(s, j + 1, end, len)
  }

  // ---------------------------------------------------------------- what holds of the list

  predicate Overlap(a: Interval, b: Interval) {
    a.start < b.end && b.start < a.end
  }

  ghost predicate Sorted(s: seq<Interval>) {
    forall i, j :: 0 <= i < j < |s| ==> s[i].start <= s[j].start
  }

  ghost predicate Disjoint(s: seq<Interval>) {
    forall i, j :: 0 <= i < j < |s| ==> !Overlap(s[i], s[j])
  }

  ghost predicate InArea(s: seq<Interval>, end: nat) {
    forall i :: 0 <= i < |s| ==> s[i].start <= s[i].end <= end
  }

  /** The entries are sorted, lie in the area and have no chunk in common; the first one is
      the volume's label at chunk 0. */
  ghost predicate Ok(s: seq<Interval>, end: nat) {
    && s != [] && s[0].start == 0 < s[0].end && end < WORD
    && Sorted(s) && Disjoint(s) && InArea(s, end)
  }

  /** `len` chunks from `x` on lie in the area and belong to nobody. */
  ghost predicate FreeAt(s: seq<Interval>, end: nat, x: nat, len: nat) {
    && x + len <= end
    && forall i :: 0 <= i < |s| ==> !Overlap(s[i], Interval(x, x + len))
  }

  /** Some entry from `i` to `j` has chunk `x`. */
  ghost predicate Taken(s: seq<Interval>, i: nat, j: nat, x: nat)
    requires j < |s|
  {
    exists k :: i <= k <= j && s[k].start <= x < s[k].end
  }

  /** The entries from `i` to `j` end at `fs` and leave no gap. */
  ghost predicate Solid(s: seq<Interval>, i: nat, j: nat, fs: nat)
    requires i <= j < |s|
  {
    && (forall k :: i <= k <= j ==> s[k].end <= fs)
    && (exists k :: i <= k <= j && s[k].end == fs)
    && (forall x :: s[i].start <= x < fs ==> Taken(s, i, j, x))
  }

  lemma SolidOne(s: seq<Interval>, i: nat)
    requires i < |s|
    ensures Solid(s, i, i, s[i].end)
  {
    assert s[i].end == s[i].end;
    forall x | s[i].start <= x < s[i].end ensures Taken(s, i, i, x) {
      assert s[i].start <= x < s[i].end;
    }
  }

  lemma SolidMore(s: seq<Interval>, i: nat, j: nat, fs: nat)
    requires i <= j && j + 1 < |s| && Solid(s, i, j, fs) && s[j + 1].start <= s[j].end
    ensures Solid(s, i, j + 1, Max(fs, s[j + 1].end))
  {
    var fs1 := Max(fs, s[j + 1].end);
    assert exists k :: i <= k <= j + 1 && s[k].end == fs1 by {
      var k :| i <= k <= j && s[k].end == fs;
      assert s[if fs1 == fs then k else j + 1].end == fs1;
    }
    var j1 := j + 1;
    forall x | s[i].start <= x < fs1
      ensures Taken(s, i, j1, x)
    {
      if x < fs {
        assert Taken(s, i, j, x);
        var k :| i <= k <= j && s[k].start <= x < s[k].end;
      } else {
        assert s[j + 1].start <= x < s[j + 1].end;
      }
    }
  }

  lemma {:induction false} MergeSolid(s: seq<Interval>, i: nat, j: nat, fs: nat)
    requires i <= j < |s| && Solid(s, i, j, fs)
    ensures var (j1, fs1) := Merge(s, j, fs);
      && Solid(s, i, j1, fs1)
      && (j1 + 1 < |s| ==> s[j1].end < s[j1 + 1].start)
    decreases |s| - j
  {
    if j + 1 < |s| && s[j + 1].start <= s[j].end {
      SolidMore(s, i, j, fs);
      MergeSolid(s, i, j + 1, Max(fs, s[j + 1].end));
    }
  }

  /** The entries are sorted and lie in the area, which the first one begins. */
  ghost predicate Area(s: seq<Interval>, end: nat) {
    && s != [] && s[0].start == 0 < s[0].end && end < WORD
    && Sorted(s) && InArea(s, end)
  }

  /** Behind entry `j` there seems to be a gap, but an earlier entry reaches past it. */
  ghost predicate Hidden(s: seq<Interval>, k: nat, j: nat) {
    k <= j && j + 1 < |s| && s[j].end < s[j + 1].start < s[k].end
  }

  ghost predicate NoneHidden(s: seq<Interval>) {
    forall k: nat, j: nat :: !Hidden(s, k, j)
  }

  /** The answer to a search: the lowest free area of that size, or 0 if there is none. */
  ghost predicate Right(s: seq<Interval>, end: nat, len: nat, r: nat) {
    && (0 < r ==> FreeAt(s, end, r, len))
    && (0 < len ==> forall x :: 0 < x && (x < r || r == 0) ==> !FreeAt(s, end, x, len))
  }

  /** Disjoint entries hide no gap. */
  lemma OkNoneHidden(s: seq<Interval>, end: nat)
    requires Ok(s, end)
    ensures Area(s, end) && NoneHidden(s)
  {
    forall k: nat, j: nat ensures !Hidden(s, k, j) {
      if k <= j && j + 1 < |s| {
        assert s[k].start <= s[j].start <= s[j].end;
        assert !Overlap(s[k], s[j + 1]);
      }
    }
  }

  /** All entries up to a gap end before it. */
  lemma BeforeGap(s: seq<Interval>, end: nat, j: nat, k: nat)
    requires NoneHidden(s) && k <= j && j + 1 < |s| && s[j].end < s[j + 1].start
    ensures s[k].end <= s[j + 1].start
  {
    assert !Hidden(s, k, j);
  }

  /** Where no gap is hidden, first fit is right: the chunk found begins a free area that is
      large enough, no free area of that size begins earlier, and none is reported only if there
      is none. (For an empty container the first gap need not be the lowest free place.) */
  lemma {:induction false} FirstFitRight(s: seq<Interval>, i: nat, end: nat, len: nat)
    requires Area(s, end) && NoneHidden(s)
    requires i < |s| && forall k :: 0 <= k < i ==> s[k].end <= s[i].start
    requires 0 < len ==> forall x :: 0 < x < s[i].start ==> !FreeAt(s, end, x, len)
    ensures Right(s, end, len, FirstFit(s, i, end, len))
    decreases |s| - i
  {
    hide Area, Solid, FreeAt, NoneHidden;
    SolidOne(s, i);
    MergeSolid(s, i, i, s[i].end);
    var (j, fs) := Merge(s, i, s[i].end);
    var fe := if j + 1 < |s| then s[j + 1].start else end;
    GapBounds(s, i, j, fs, end);
    if 0 < len { GapOnly(s, i, j, fs, end, len); }
    if !(j + 1 == |s| && fe == fs) && len <= fe - fs {
      GapFree(s, i, j, fs, end, len);
    } else if j + 1 < |s| {
      forall k | 0 <= k < j + 1 ensures s[k].end <= s[j + 1].start { BeforeGap(s, end, j, k); }
      FirstFitRight(s, j + 1, end, len);
    }
  }

  lemma FirstFitExact(s: seq<Interval>, end: nat, len: nat)
    requires Ok(s, end)
    ensures Right(s, end, len, FirstFit(s, 0, end, len))
  {
    hide Right, FirstFit;
    OkNoneHidden(s, end);
    FirstFitRight(s, 0, end, len);
  }

  /** Inside a run every entry begins no later than its predecessor ends. */
  lemma {:induction false} MergeRun(s: seq<Interval>, j: nat, fs: nat)
    requires j < |s|
    ensures forall x :: j <= x < Merge(s, j, fs).0 ==> s[x + 1].start <= s[x].end
    decreases |s| - j
  {
    if j + 1 < |s| && s[j + 1].start <= s[j].end { MergeRun(s, j + 1, Max(fs, s[j + 1].end)); }
  }

  /** A hidden gap leads the search astray: its size wraps around, and for a length just as large
      the answer is an area that reaches beyond the volume. */
  lemma {:induction false} FirstFitAstray(s: seq<Interval>, i: nat, end: nat, k: nat, h: nat) returns (len: nat)
    requires Area(s, end) && i <= h && Hidden(s, k, h)
    requires i < |s| && forall x :: 0 <= x < i ==> s[x].end <= s[i].start
    ensures s[i].start < len
    ensures var r := FirstFit(s, i, end, len); 0 < r && end < r + len
    decreases |s| - i
  {
    hide Solid, Area, Sub;
    SolidOne(s, i);
    MergeSolid(s, i, i, s[i].end);
    MergeRun(s, i, s[i].end);
    var (j, fs) := Merge(s, i, s[i].end);
    SolidBounds(s, i, j, fs, end);
    assert j <= h;
    var fe := s[j + 1].start;
    InOrder(s, end, i, j + 1);
    SubExact(fe, fs, end);
    if fs <= fe { len := FirstFitAstray(s, j + 1, end, k, h); } else { len := WORD - (fs - fe); }
  }

  lemma SubExact(a: nat, b: nat, end: nat)
    requires a <= end && b <= end < WORD
    ensures Sub(a, b) == if b <= a then a - b else WORD - (b - a)
  {}

  lemma InOrder(s: seq<Interval>, end: nat, i: nat, j: nat)
    requires Area(s, end) && i <= j < |s|
    ensures s[i].start <= s[j].start <= end < WORD && (i == 0 ==> 0 < s[0].end)
  {}

  lemma SolidBounds(s: seq<Interval>, i: nat, j: nat, fs: nat, end: nat)
    requires Area(s, end) && i <= j < |s| && Solid(s, i, j, fs)
    requires forall k :: 0 <= k < i ==> s[k].end <= s[i].start
    ensures 0 < fs <= end && forall k :: i <= k <= j ==> s[k].end <= fs
  {
    assert s[i].start <= s[i].end <= fs;
    assert 0 < i ==> s[0].end <= s[i].start;
  }

  /** The search is right for every size exactly if no gap is hidden. */
  lemma SearchExact(s: seq<Interval>, end: nat)
    requires Area(s, end)
    ensures (forall len :: 0 < len ==> Right(s, end, len, FirstFit(s, 0, end, len))) <==> NoneHidden(s)
  {
    hide FirstFit;
    if NoneHidden(s) {
      forall len: nat | 0 < len ensures Right(s, end, len, FirstFit(s, 0, end, len)) {
        FirstFitRight(s, 0, end, len);
      }
    } else {
      var k: nat, h: nat :| Hidden(s, k, h);
      var len := FirstFitAstray(s, 0, end, k, h);
      assert !Right(s, end, len, FirstFit(s, 0, end, len));
    }
  }

  /** Where the gap after a run begins and ends; nothing wraps around. */
  lemma GapBounds(s: seq<Interval>, i: nat, j: nat, fs: nat, end: nat)
    requires Area(s, end) && NoneHidden(s) && i <= j < |s| && Solid(s, i, j, fs)
    requires j + 1 < |s| ==> s[j].end < s[j + 1].start
    requires forall k :: 0 <= k < i ==> s[k].end <= s[i].start
    ensures var fe := if j + 1 < |s| then s[j + 1].start else end;
      0 < fs <= fe && Sub(fe, fs) == fe - fs && s[i].start <= fs
  {
    var k :| i <= k <= j && s[k].end == fs;
    if j + 1 < |s| { BeforeGap(s, end, j, k); }
    assert s[0].start == 0 < s[0].end;
    assert s[i].start <= s[i].end <= fs;
  }

  /** What lies between a run and the next entry is free. */
  lemma GapFree(s: seq<Interval>, i: nat, j: nat, fs: nat, end: nat, len: nat)
    requires Area(s, end) && i <= j < |s| && Solid(s, i, j, fs)
    requires j + 1 < |s| ==> s[j].end < s[j + 1].start
    requires forall k :: 0 <= k < i ==> s[k].end <= s[i].start
    requires fs + len <= if j + 1 < |s| then s[j + 1].start else end
    ensures FreeAt(s, end, fs, len)
  {
    forall k | 0 <= k < |s|
      ensures !Overlap(s[k], Interval(fs, fs + len))
    {
      if k < i { assert s[i].start <= s[i].end <= fs; }
    }
  }

  /** No free area begins inside a run, nor in a gap that is too small. */
  lemma GapOnly(s: seq<Interval>, i: nat, j: nat, fs: nat, end: nat, len: nat)
    requires Area(s, end) && i <= j < |s| && Solid(s, i, j, fs) && 0 < len
    ensures var fe := if j + 1 < |s| then s[j + 1].start else end;
      forall x :: s[i].start <= x && (j + 1 < |s| ==> x < fe) && FreeAt(s, end, x, len) ==>
        fs <= x && x + len <= fe
  {
    var fe := if j + 1 < |s| then s[j + 1].start else end;
    forall x | s[i].start <= x && (j + 1 < |s| ==> x < fe) && FreeAt(s, end, x, len)
      ensures fs <= x && x + len <= fe
    {
      assert x < fs ==> Taken(s, i, j, x);
      if j + 1 < |s| { assert !Overlap(s[j + 1], Interval(x, x + len)); }
    }
  }

  // ---------------------------------------------------------------- whole runs

  /** Registering an area that belongs to nobody keeps the list in order. */
  lemma RegisterOk(s: seq<Interval>, end: nat, start: nat, len: nat)
    requires Ok(s, end) && 0 < start && FreeAt(s, end, start, len)
    ensures Ok(Register(s, start, len), end)
  {
    hide Before;
    var k, e := Before(s, start), Interval(start, start + len);
    var r := Register(s, start, len);
    assert 0 < k && r[0] == s[0];
    assert InArea(r, end) by {
      forall i | 0 <= i < |r| ensures r[i].start <= r[i].end <= end {
        assert r[i] == if i < k then s[i] else if i == k then e else s[i - 1];
      }
    }
    forall i, j | 0 <= i < j < |r|
      ensures r[i].start <= r[j].start && !Overlap(r[i], r[j])
    {
      if j < k {
        assert r[i] == s[i] && r[j] == s[j];
      } else if j == k {
        assert r[i] == s[i] && r[j] == e;
      } else if i == k {
        assert r[i] == e && r[j] == s[j - 1];
        assert s[k].start <= s[j - 1].start;
      } else {
        assert r[j] == s[j - 1] && r[i] == s[if i < k then i else i - 1];
      }
    }
  }

  lemma WithoutOk(s: seq<Interval>, end: nat, k: nat)
    requires Ok(s, end) && 0 < k < |s|
    ensures Ok(s[..k] + s[k + 1..], end)
  {
    hide Overlap;
    var r := s[..k] + s[k + 1..];
    forall i | 0 <= i < |r| ensures r[i] == s[if i < k then i else i + 1] {}
    forall i, j | 0 <= i < j < |r|
      ensures r[i].start <= r[j].start && !Overlap(r[i], r[j])
    {
      var a, b := if i < k then i else i + 1, if j < k then j else j + 1;
      assert r[i] == s[a] && r[j] == s[b];
    }
  }

  /** So does taking out any entry but the label. */
  lemma UnregisterOk(s: seq<Interval>, end: nat, start: nat, len: nat)
    requires Ok(s, end) && 0 < start
    ensures Ok(Unregister(s, start, len), end)
  {
    hide Sorted, Disjoint, InArea;
    var k := Position(s, Interval(start, start + len));
    if k < |s| { WithoutOk(s, end, k); }
  }

  lemma RegisterMultiset(s: seq<Interval>, start: nat, len: nat)
    ensures multiset(Register(s, start, len)) == multiset(s) + multiset{Interval(start, start + len)}
  {
    var k := Before(s, start);
    assert s == s[..k] + s[k..];
  }

  lemma UnregisterMultiset(s: seq<Interval>, start: nat, len: nat)
    ensures multiset(Unregister(s, start, len)) == multiset(s) - multiset{Interval(start, start + len)}
  {
    var e := Interval(start, start + len);
    var k := Position(s, e);
    if k < |s| {
      assert s == s[..k] + [e] + s[k + 1..];
    } else {
      assert s[..k] == s;
    }
  }

  lemma UnregisterNone(s: seq<Interval>, start: nat, len: nat)
    requires Interval(start, start + len) !in s
    ensures Unregister(s, start, len) == s
  {}

  /** Registering and unregistering the same container changes nothing but perhaps the
      order of equal starts, whatever the list. */
  lemma RegisterUndone(s: seq<Interval>, start: nat, len: nat)
    ensures multiset(Unregister(Register(s, start, len), start, len)) == multiset(s)
  {
    RegisterMultiset(s, start, len);
    UnregisterMultiset(Register(s, start, len), start, len);
  }

  /** The tools reserve a container for a new file, or release the one of a removed file. */
  datatype Step = Reserve(len: nat) | Release(start: nat, len: nat)

  ghost predicate Enabled(s: seq<Interval>, step: Step) {
    step.Release? ==> 0 < step.start
  }

  /** A container is reserved only if first fit found one inside the volume. */
  function Next(s: seq<Interval>, end: nat, step: Step): seq<Interval> {
    match step
    case Reserve(len) =>
      var c := FirstFit(s, 0, end, len);
      if c == 0 || end <= c then s else Register(s, c, len)
    case Release(start, len) => Unregister(s, start, len)
  }

  ghost predicate Run(end: nat, states: seq<seq<Interval>>, steps: seq<Step>) {
    && |states| == |steps| + 1
    && forall k :: 0 <= k < |steps| ==>
         Enabled(states[k], steps[k]) && states[k + 1] == Next(states[k], end, steps[k])
  }

  lemma StepOk(s: seq<Interval>, end: nat, step: Step)
    requires Ok(s, end) && Enabled(s, step)
    ensures Ok(Next(s, end, step), end)
  {
    match step
    case Reserve(len) =>
      FirstFitExact(s, end, len);
      var c := FirstFit(s, 0, end, len);
      if 0 < c < end { RegisterOk(s, end, c, len); }
    case Release(start, len) => UnregisterOk(s, end, start, len);
  }

  /** In every run that starts from disjoint regions, all containers stay disjoint and
      inside the volume, and the list stays sorted. */
  lemma {:induction false} RunOk(end: nat, states: seq<seq<Interval>>, steps: seq<Step>, k: nat)
    requires Run(end, states, steps) && Ok(states[0], end) && k < |states|
    ensures Ok(states[k], end)
  {
    if k > 0 {
      RunOk(end, states, steps, k - 1);
      StepOk(states[k - 1], end, steps[k - 1]);
    }
  }

  /** An instance: the run is cut short by an entry that ends before an earlier one, and the gap
      after it seems to be of astronomic size. */
  lemma OverlapBreaks()
    ensures var s := [Interval(0, 10), Interval(2, 3), Interval(5, 6)];
      Area(s, 12) && Hidden(s, 0, 1) && FirstFit(s, 0, 12, 5) == 10 && !Right(s, 12, 5, 10)
  {
    var s := [Interval(0, 10), Interval(2, 3), Interval(5, 6)];
    assert Merge(s, 1, 10) == (1, 10);
    assert Merge(s, 0, 10) == (1, 10);
    assert Sub(5, 10) == WORD - 5;
  }

  /** Overlapping entries alone do no harm. */
  lemma OverlapHarmless(len: nat)
    requires 0 < len
    ensures var s := [Interval(0, 10), Interval(5, 12)];
      Area(s, 20) && Overlap(s[0], s[1]) && Right(s, 20, len, FirstFit(s, 0, 20, len))
  {
    FirstFitRight([Interval(0, 10), Interval(5, 12)], 0, 20, len);
  }
}
