/** What mounting an image gives: when the volume is good, that a formatted one is, and that the
    allocator's list is right again after every session of the tools. */
module AdminMount {
  import opened Types
  import opened HashWords
  import opened TableSpec
  import opened TableImage
  import opened AdminSpec
  import opened AdminRuns
  import opened AdminFiles
  import Al = AllocSpec
  import Arith

  // ---------------------------------------------------------------- which images mount well

  /** The digest in entry `i` of the image. */
  function DigestAt(m: Image, per: nat, hlen: nat, i: nat): (k: Key)
    requires Sized(m, per, i + 1) && hlen <= 64
    ensures |k| == hlen
  {
    Get(m, per, i).hash[..hlen]
  }

  /** No digest is stored twice. */
  ghost predicate Once(m: Image, per: nat, n: nat, hlen: nat)
    requires Sized(m, per, n) && hlen <= 64
  {
    forall i: nat, j: nat :: i < n && j < n && DigestAt(m, per, hlen, i) == DigestAt(m, per, hlen, j) != Nul(hlen)
      ==> i == j
  }

  /** Every digest is stored in its bucket. */
  ghost predicate InBuckets(m: Image, per: nat, nbBkts: nat, elPerBkt: nat, hlen: nat)
    requires Sized(m, per, nbBkts * elPerBkt) && hlen <= 64 && 0 < nbBkts && 0 < elPerBkt
  {
    forall i: nat :: i < nbBkts * elPerBkt && DigestAt(m, per, hlen, i) != Nul(hlen) ==>
      i / elPerBkt == BucketNo(DigestAt(m, per, hlen, i), nbBkts)
  }

  /** No two entries carry the mark of the default entry. */
  ghost predicate OneMark(m: Image, per: nat, n: nat)
    requires Sized(m, per, n)
  {
    forall i: nat, j: nat :: i < n && j < n && Get(m, per, i).dflt && Get(m, per, j).dflt ==> i == j
  }

  /** The image on disk can be mounted. */
  ghost predicate Mountable(v: Volume) {
    Sound(v) && Sized(v.disk, v.per, |v.table.slots|)
  }

  /** The image has no digest twice or outside its bucket, no two marks, and its copies agree. */
  ghost predicate Proper(v: Volume)
    requires Mountable(v)
  {
    && Once(v.disk, v.per, |v.table.slots|, v.table.hlen)
    && InBuckets(v.disk, v.per, v.table.nbBkts, v.table.elPerBkt, v.table.hlen)
    && OneMark(v.disk, v.per, |v.table.slots|)
    && (v.bak.Some? ==> v.bak.value == v.disk)
  }

  lemma InBucket(i: nat, b: nat, el: nat)
    requires 0 < el
    ensures b * el <= i < b * el + el <==> i / el == b
  {
    if b * el <= i < b * el + el { Arith.DivUnique(i, el, b, i - b * el); }
    assert i == i / el * el + i % el;
  }

  lemma LoadedProper(m: Image, per: nat, nbBkts: nat, elPerBkt: nat, hlen: nat)
    requires Sized(m, per, nbBkts * elPerBkt) && hlen <= 64 && 0 < nbBkts && 0 < elPerBkt
    ensures var t := Loaded(m, per, nbBkts, elPerBkt, hlen);
      Inv(t) <==> Once(m, per, nbBkts * elPerBkt, hlen) && InBuckets(m, per, nbBkts, elPerBkt, hlen)
  {
    hide Get, Used, Listed, BucketNo;
    var t := Loaded(m, per, nbBkts, elPerBkt, hlen);
    LoadedListed(m, per, nbBkts, elPerBkt, hlen);
    forall i: nat | i < |t.slots|
      ensures t.slots[i] == DigestAt(m, per, hlen, i)
      ensures Home(t, t.slots[i]) <= i < Home(t, t.slots[i]) + elPerBkt <==>
        i / elPerBkt == BucketNo(DigestAt(m, per, hlen, i), nbBkts)
    {
      InBucket(i, BucketNo(t.slots[i], nbBkts), elPerBkt);
    }
    assert Placed(t) <==> InBuckets(m, per, nbBkts, elPerBkt, hlen);
    assert Unique(t) <==> Once(m, per, nbBkts * elPerBkt, hlen);
  }

  lemma LoadedMarks(m: Image, per: nat, n: nat)
    requires Sized(m, per, n)
    ensures (forall i: nat :: i < n && Get(m, per, i).dflt ==> LastDefault(m, per, n) == Some(i)) <==>
      OneMark(m, per, n)
  {
    hide Get;
  }

  /** Mounting gives a good volume exactly if the image is proper. */
  lemma MountGood(v: Volume, reserved: seq<Al.Interval>)
    requires Mountable(v)
    ensures Good(Load(v, reserved)) <==> Proper(v)
  {
    hide Get, Home, Registered, Loaded, Inv, Once, InBuckets, OneMark;
    var n := |v.table.slots|;
    var w := Load(v, reserved);
    LoadedProper(v.disk, v.per, v.table.nbBkts, v.table.elPerBkt, v.table.hlen);
    LoadedMarks(v.disk, v.per, n);
    LoadSound(v, reserved);
    assert Marked(w) <==> OneMark(v.disk, v.per, n) by {
      assert forall i: nat :: i < n ==> EntryOf(w, i) == Get(v.disk, v.per, i);
    }
    LoadClean(v, reserved);
  }

  lemma LoadSound(v: Volume, reserved: seq<Al.Interval>)
    requires Mountable(v)
    ensures var w := Load(v, reserved);
      Sound(w) && Agree(w) && |w.table.slots| == |v.table.slots|
  {
    LoadedListed(v.disk, v.per, v.table.nbBkts, v.table.elPerBkt, v.table.hlen);
  }

  lemma LoadClean(v: Volume, reserved: seq<Al.Interval>)
    requires Mountable(v) && Sound(Load(v, reserved))
    ensures Clean(Load(v, reserved)) <==> (v.bak.Some? ==> v.bak.value == v.disk)
  {
    hide Get, Registered, Loaded;
    var w := Load(v, reserved);
    if Clean(w) && v.bak.Some? { assert forall c :: 0 <= c < |v.disk| ==> v.bak.value[c] == v.disk[c]; }
  }

  // ---------------------------------------------------------------- a formatted volume

  /** The table was erased, in both copies. */
  ghost predicate Formatted(v: Volume)
    requires Mountable(v)
  {
    && (v.bak.Some? ==> v.bak.value == v.disk)
    && forall i: nat :: i < |v.table.slots| ==>
         DigestAt(v.disk, v.per, v.table.hlen, i) == Nul(v.table.hlen) && !Get(v.disk, v.per, i).dflt
  }

  /** Mounting a formatted volume gives a good one whose list has just the reserved areas. */
  lemma FormattedMount(v: Volume, reserved: seq<Al.Interval>)
    requires Mountable(v) && Formatted(v) && Al.Ok(reserved, v.size)
    ensures var w := Load(v, reserved);
      Good(w) && Booked(w, multiset(reserved)) && forall k :: |k| == w.table.hlen ==> FindIn(w, k) == None
  {
    hide Get, Al.Ok;
    var n, hlen := |v.table.slots|, v.table.hlen;
    var w := Load(v, reserved);
    MountGood(v, reserved);
    assert Good(w);
    NoneUsed(w.table.slots, hlen, n);
    RegisteredNone(reserved, v.disk, v.per, n, v.chunkSize);
    NoContainers(v.disk, v.per, n, hlen, v.chunkSize);
    forall k: Key | |k| == hlen
      ensures FindIn(w, k) == None
    {
      LookupExact(w.table, k, 0);
    }
  }

  lemma {:induction false} NoneUsed(s: seq<Key>, hlen: nat, k: nat)
    requires k <= |s| && forall i :: 0 <= i < k ==> s[i] == Nul(hlen)
    ensures Used(s, hlen, k) == []
  {
    if k > 0 { NoneUsed(s, hlen, k - 1); }
  }

  lemma {:induction false} NoContainers(m: Image, per: nat, k: nat, hlen: nat, chunkSize: nat)
    requires Sized(m, per, k) && hlen <= 64 && 0 < chunkSize
    requires forall i: nat :: i < k ==> DigestAt(m, per, hlen, i) == Nul(hlen)
    ensures Containers(m, per, k, hlen, chunkSize) == multiset{}
  {
    hide Get;
    if k > 0 {
      assert DigestAt(m, per, hlen, k - 1) == Nul(hlen);
      NoContainers(m, per, k - 1, hlen, chunkSize);
    }
  }

  // ---------------------------------------------------------------- mounting what was written back

  lemma {:induction false} RegisterSorted(s: seq<Al.Interval>, start: nat, len: nat)
    requires Al.Sorted(s)
    ensures Al.Sorted(Al.Register(s, start, len))
    ensures Al.Register(s, start, len) != []
    ensures s != [] && s[0].start == 0 ==> Al.Register(s, start, len)[0] == s[0]
  {
    var k := Al.Before(s, start);
    var r := Al.Register(s, start, len);
    forall i, j | 0 <= i < j < |r|
      ensures r[i].start <= r[j].start
    {
      if k < j && i <= k { assert k < |s| ==> start < s[k].start <= s[j - 1].start; }
    }
  }

  lemma {:induction false} RegisteredSorted(al: seq<Al.Interval>, m: Image, per: nat, order: seq<nat>, n: nat,
                                            chunkSize: nat)
    requires Sized(m, per, n) && 0 < chunkSize && forall j :: 0 <= j < |order| ==> order[j] < n
    requires Al.Sorted(al) && al != [] && al[0].start == 0
    ensures var r := Registered(al, m, per, order, n, chunkSize);
      Al.Sorted(r) && r != [] && r[0] == al[0]
  {
    hide Get, Al.Register, Al.Sorted, Size;
    if order != [] {
      var e := Get(m, per, order[|order| - 1]);
      var before := Registered(al, m, per, order[..|order| - 1], n, chunkSize);
      RegisteredSorted(al, m, per, order[..|order| - 1], n, chunkSize);
      RegisterSorted(before, e.chunk, Size(e, chunkSize));
    }
  }

  /** A sorted list with the same entries as one in order is in order too. */
  lemma SameEntriesOk(s: seq<Al.Interval>, t: seq<Al.Interval>, end: nat)
    requires Al.Ok(s, end) && multiset(t) == multiset(s) && Al.Sorted(t) && t != [] && t[0].start == 0 < t[0].end
    ensures Al.Ok(t, end)
  {
    hide Al.Sorted, Al.Overlap;
    forall i | 0 <= i < |t|
      ensures t[i].start <= t[i].end <= end
    {
      assert t[i] in multiset(t);
      assert t[i] in s;
    }
    forall i, j | 0 <= i < j < |t|
      ensures !Al.Overlap(t[i], t[j])
    {
      TwoOf(t, i, j);
      Apart(s, end, t[i], t[j]);
    }
  }

  lemma TwoOf(t: seq<Al.Interval>, i: nat, j: nat)
    requires i < j < |t|
    ensures multiset{t[i]} + multiset{t[j]} <= multiset(t)
  {
    assert t == t[..i] + [t[i]] + t[i + 1..j] + [t[j]] + t[j + 1..];
  }

  ghost predicate NoLinks(v: Volume)
    requires Sound(v)
  {
    forall i: nat :: i < |v.table.slots| && InUse(v.table, i) ==> !EntryOf(v, i).link
  }

  /** What a session leaves for the next one: the volume written back and mounted again. */
  ghost function Remounted(v: Volume, reserved: seq<Al.Interval>): Volume
    requires Good(v)
  {
    WrittenBack(v);
    Load(WriteBack(v), reserved)
  }

  /** After writing back and mounting again the allocator's list is right exactly if there is no
      link. */
  lemma RemountBooked(v: Volume, reserved: seq<Al.Interval>)
    requires Good(v) && Booked(v, multiset(reserved)) && Al.Ok(reserved, v.size)
    ensures Restored(v, reserved) && Good(Remounted(v, reserved))
    ensures Booked(Remounted(v, reserved), multiset(reserved)) <==> NoLinks(v)
  {
    hide Get, Containers, Registered, Inv, Al.Ok, Al.Sorted, Restored, FindIn;
    LoadedList(v, reserved);
    RemountFrame(v, reserved);
    if NoLinks(v) {
      var w := Remounted(v, reserved);
      OkSorted(reserved, v.size);
      RegisteredSorted(reserved, w.cache, w.per, w.table.order, |w.table.slots|, w.chunkSize);
      SameEntriesOk(v.al, w.al, v.size);
    }
  }

  lemma OkSorted(s: seq<Al.Interval>, end: nat)
    requires Al.Ok(s, end)
    ensures Al.Sorted(s) && s != [] && s[0].start == 0 < s[0].end
  {}

  lemma RemountFrame(v: Volume, reserved: seq<Al.Interval>)
    requires Good(v) && Restored(v, reserved)
    ensures var w := Remounted(v, reserved);
      && Good(w) && w == Load(WriteBack(v), reserved)
      && w.size == v.size && w.per == v.per && w.chunkSize == v.chunkSize && w.cache == v.cache
      && w.table.slots == v.table.slots && w.table.hlen == v.table.hlen && Files(w) == Files(v)
      && w.al == Registered(reserved, w.cache, w.per, w.table.order, |w.table.slots|, w.chunkSize)
      && forall i: nat :: i < |v.table.slots| ==> EntryOf(w, i) == EntryOf(v, i)
  {
    WrittenBack(v);
    hide Get, Registered, Inv, FindIn;
  }

  // ---------------------------------------------------------------- sessions

  /** `mkfs` and `mount_shfs` reserve the label, the table and its backup. */
  lemma ReservedOk(tableRef: nat, backupRef: nat, tableLen: nat, size: nat)
    requires 2 <= tableRef && tableRef + tableLen <= size && 2 <= size < Al.WORD
    requires backupRef != 0 ==> backupRef + tableLen <= size
    requires backupRef != 0 ==>
      ((2 <= backupRef && backupRef + tableLen <= tableRef) || tableRef + tableLen <= backupRef)
    ensures Al.Ok(Reserved(tableRef, backupRef, tableLen), size)
  {
    hide Al.Register, Al.Ok;
    var boot := Al.Interval(0, 2);
    assert Al.Register([], 0, 2) == [boot] by { LabelOnly(); }
    assert Al.Ok([boot], size) by { LabelOk(size); }
    Al.RegisterOk([boot], size, tableRef, tableLen);
    if backupRef != 0 {
      var s := Al.Register([boot], tableRef, tableLen);
      Al.RegisterMultiset([boot], tableRef, tableLen);
      forall i | 0 <= i < |s|
        ensures !Al.Overlap(s[i], Al.Interval(backupRef, backupRef + tableLen))
      {
        assert s[i] in multiset(s);
        assert s[i] == boot || s[i] == Al.Interval(tableRef, tableRef + tableLen);
      }
      Al.RegisterOk(s, size, backupRef, tableLen);
    }
  }

  lemma LabelOnly()
    ensures Al.Register([], 0, 2) == [Al.Interval(0, 2)]
  {}

  lemma LabelOk(size: nat)
    requires 2 <= size < Al.WORD
    ensures Al.Ok([Al.Interval(0, 2)], size)
  {}

  /** Sessions of the tools one after the other: each mounts what the one before wrote back. */
  ghost function AfterSessions(v: Volume, sessions: seq<seq<Action>>, reserved: seq<Al.Interval>): (w: Volume)
    requires Good(v)
    ensures Good(w)
    decreases |sessions|
  {
    hide AfterAll, Remounted;
    if sessions == [] then v
    else
      NextMount(v, sessions[0], reserved);
      AfterSessions(Remounted(AfterAll(v, sessions[0]), reserved), sessions[1..], reserved)
  }

  lemma NextMount(v: Volume, actions: seq<Action>, reserved: seq<Al.Interval>)
    requires Good(v)
    ensures Good(AfterAll(v, actions)) && Good(Remounted(AfterAll(v, actions), reserved))
  {
    RunGood(v, actions);
    RoundTrip(AfterAll(v, actions), reserved);
  }

  /** No session tears a file, and none leaves a link. */
  ghost predicate WholeSessions(v: Volume, sessions: seq<seq<Action>>, reserved: seq<Al.Interval>)
    requires Good(v)
    decreases |sessions|
  {
    hide AfterAll, Remounted, Whole, NoLinks;
    if sessions == [] then true
    else
      NextMount(v, sessions[0], reserved);
      && Whole(v, sessions[0]) && NoLinks(AfterAll(v, sessions[0]))
      && WholeSessions(Remounted(AfterAll(v, sessions[0]), reserved), sessions[1..], reserved)
  }

  lemma {:induction false} AfterSize(v: Volume, actions: seq<Action>)
    requires Good(v)
    ensures AfterAll(v, actions).size == v.size
    decreases |actions|
  {
    hide After, Sound, Inv, Agree, Clean, Marked;
    if actions != [] {
      StepGood(v, actions[0]);
      StepSize(v, actions[0]);
      AfterSize(After(v, actions[0]), actions[1..]);
    }
  }

  lemma StepSize(v: Volume, action: Action)
    requires Sound(v)
    ensures After(v, action).size == v.size
  {}

  lemma {:induction false} SessionsBooked(v: Volume, sessions: seq<seq<Action>>, reserved: seq<Al.Interval>)
    requires Good(v) && Booked(v, multiset(reserved)) && Al.Ok(reserved, v.size)
    requires WholeSessions(v, sessions, reserved)
    ensures Booked(AfterSessions(v, sessions, reserved), multiset(reserved))
    decreases |sessions|
  {
    hide AfterAll, Remounted, Whole, NoLinks, Booked, Sound, Inv, Agree, Clean, Marked, Al.Ok;
    if sessions != [] {
      var w := AfterAll(v, sessions[0]);
      NextMount(v, sessions[0], reserved);
      RunBooked(v, sessions[0], multiset(reserved));
      AfterSize(v, sessions[0]);
      RemountBooked(w, reserved);
      RemountedSize(w, reserved);
      SessionsBooked(Remounted(w, reserved), sessions[1..], reserved);
    }
  }

  lemma RemountedSize(v: Volume, reserved: seq<Al.Interval>)
    requires Good(v)
    ensures Remounted(v, reserved).size == v.size
  {}

  /** The first mount of a formatted volume. */
  ghost function FirstMount(v: Volume, reserved: seq<Al.Interval>): (w: Volume)
    requires Mountable(v) && Formatted(v) && Al.Ok(reserved, v.size)
    ensures Good(w) && Booked(w, multiset(reserved)) && w.size == v.size
  {
    hide *;
    FormattedMount(v, reserved);
    LoadSize(v, reserved);
    Load(v, reserved)
  }

  /** From a formatted volume on, after any sessions that tear no file and leave no link, no chunk
      that holds a byte of a file holds a byte of another one or lies in a reserved area. */
  lemma SessionsApart(v: Volume, sessions: seq<seq<Action>>, reserved: seq<Al.Interval>, i: nat, j: nat,
                      r: Al.Interval)
    requires Mountable(v) && Formatted(v) && Al.Ok(reserved, v.size)
    requires WholeSessions(FirstMount(v, reserved), sessions, reserved) && r in reserved
    requires var w := AfterSessions(FirstMount(v, reserved), sessions, reserved);
      && i < |w.table.slots| && j < |w.table.slots| && i != j
      && IsFile(EntryOf(w, i), w.table.hlen) && IsFile(EntryOf(w, j), w.table.hlen)
    ensures var w := AfterSessions(FirstMount(v, reserved), sessions, reserved);
      Separate(EntryOf(w, i), EntryOf(w, j), r, w.size, w.chunkSize)
  {
    hide Good, Booked, Al.Ok, Separate, Formatted, FirstMount, AfterSessions, WholeSessions;
    SessionsBooked(FirstMount(v, reserved), sessions, reserved);
    FilesApart(AfterSessions(FirstMount(v, reserved), sessions, reserved), multiset(reserved), i, j, r);
  }

  lemma LoadSize(v: Volume, reserved: seq<Al.Interval>)
    requires Mountable(v)
    ensures Load(v, reserved).size == v.size
  {}
}
