/** What every action of the tools keeps: writing back and mounting again gives the same map
    from digests to entries, and the containers of the files never overlap. */
module AdminRuns {
  import opened Types
  import opened HashWords
  import opened TableSpec
  import opened TableImage
  import opened AdminSpec
  import Al = AllocSpec

  // ---------------------------------------------------------------- what holds of a volume

  /** The slots hold the digests of the cached entries. */
  ghost predicate Agree(v: Volume)
    requires Sound(v)
  {
    forall i: nat :: i < |v.table.slots| ==> v.table.slots[i] == EntryOf(v, i).hash[..v.table.hlen]
  }

  /** Chunks that are not marked are as on disk. */
  ghost predicate Clean(v: Volume)
    requires Sound(v)
  {
    forall c :: 0 <= c < |v.cache| && !v.modified[c] ==>
      v.cache[c] == v.disk[c] && (v.bak.Some? ==> v.bak.value[c] == v.cache[c])
  }

  /** No entry but the default one is marked as such. */
  ghost predicate Marked(v: Volume)
    requires Sound(v)
  {
    forall i: nat :: i < |v.table.slots| && EntryOf(v, i).dflt ==> v.def == Some(i)
  }

  ghost predicate Good(v: Volume) {
    Sound(v) && Inv(v.table) && Agree(v) && Clean(v) && Marked(v)
  }

  datatype Action =
    | DoAddFile(k: Digest, fsize: nat, ready: bool, copied: bool)
    | DoAddLink(k: Digest, chunk: nat, offset: nat, len: nat)
    | DoRmFile(k: Digest)
    | DoSetDefault(k: Digest)
    | DoClearDefault

  function After(v: Volume, action: Action): Volume
    requires Sound(v)
  {
    match action
    case DoAddFile(k, fsize, ready, copied) => AddFile(v, k, fsize, ready, copied).0
    case DoAddLink(k, chunk, offset, len) => AddLink(v, k, chunk, offset, len).0
    case DoRmFile(k) => RmFile(v, k).0
    case DoSetDefault(k) => SetDefault(v, k).0
    case DoClearDefault => ClearDefault(v)
  }

  // ---------------------------------------------------------------- every action keeps it

  /** Only the entry of slot `i` differs. */
  ghost predicate Changed(v: Volume, w: Volume, i: nat, e: HEntry)
    requires Sound(v) && Sound(w)
  {
    && |w.table.slots| == |v.table.slots|
    && forall j: nat :: j < |v.table.slots| ==> EntryOf(w, j) == if j == i then e else EntryOf(v, j)
  }

  /** Overwriting an entry together with its slot. */
  lemma WriteGood(v: Volume, t: Table, i: nat, e: HEntry)
    requires Good(v) && i < |v.table.slots| && Inv(t) && t.hlen == v.table.hlen
    requires t.slots == v.table.slots[i := e.hash[..v.table.hlen]] && (e.dflt ==> v.def == Some(i))
    ensures Good(Write(v.(table := t), i, e)) && Changed(v, Write(v.(table := t), i, e), i, e)
  {
    hide Inv, Get;
    PutGet(v.cache, v.per, |v.table.slots|, i, e);
  }

  /** The table has a place for a new digest. */
  ghost predicate Accepts(v: Volume, k: Digest)
    requires Sound(v)
  {
    var key := k[..v.table.hlen];
    key != Nul(v.table.hlen) && !Holds(v.table, key) && HasRoom(v.table, key)
  }

  lemma InsertGood(v: Volume, k: Digest, chunk: nat, offset: nat, len: nat, link: bool)
    requires Good(v)
    ensures var r := Insert(v, k, chunk, offset, len, link);
      (r.Some? <==> Accepts(v, k)) && (r.Some? ==> Inserted(v, r.value.0, r.value.1, k, chunk, offset, len, link))
  {
    hide CopyOf, Get, Write;
    var key := k[..v.table.hlen];
    LookupExact(v.table, key, 0);
    AddExact(v.table, key);
    if Lookup(v.table, key).Fail? && Add(v.table, key).1.Slot? {
      AddInv(v.table, key);
      var (t, r) := Add(v.table, key);
      WriteGood(v, t, r.i, HEntry(CopyOf(EntryOf(v, r.i).hash, k, v.table.hlen), chunk, offset, len, link, false));
    }
  }

  /** A free slot took a new entry. */
  ghost predicate Inserted(v: Volume, w: Volume, i: nat, k: Digest, chunk: nat, offset: nat, len: nat, link: bool)
    requires Sound(v)
  {
    && Good(w) && i < |v.table.slots| && !InUse(v.table, i) && k[..v.table.hlen] != Nul(v.table.hlen)
    && w.(table := v.table, cache := v.cache, modified := v.modified) == v
    && w.table.hlen == v.table.hlen && w.table.slots == v.table.slots[i := k[..v.table.hlen]]
    && Changed(v, w, i, HEntry(CopyOf(EntryOf(v, i).hash, k, v.table.hlen), chunk, offset, len, link, false))
  }

  lemma RmGood(v: Volume, k: Digest)
    requires Good(v)
    ensures Good(RmFile(v, k).0)
    ensures RmFile(v, k).1 ==> var i := Lookup(v.table, k[..v.table.hlen]).i; var e := EntryOf(v, i);
      && InUse(v.table, i) && Changed(v, RmFile(v, k).0, i, e.(hash := ClearOf(e.hash, v.table.hlen)))
  {
    hide ClearOf, Get, Write;
    var r := Lookup(v.table, k[..v.table.hlen]);
    if RmFile(v, k).1 {
      LookupExact(v.table, k[..v.table.hlen], r.i);
      RmExact(v.table, r.i);
      var e := EntryOf(v, r.i);
      var w := v.(al := if e.link then v.al else Al.Unregister(v.al, e.chunk, Size(e, v.chunkSize)));
      WriteGood(w, Rm(v.table, r.i), r.i, e.(hash := ClearOf(e.hash, v.table.hlen)));
    }
  }

  lemma ClearDefaultGood(v: Volume)
    requires Good(v)
    ensures Good(ClearDefault(v))
    ensures forall j: nat :: j < |v.table.slots| ==> EntryOf(ClearDefault(v), j) == EntryOf(v, j).(dflt := false)
  {
    hide Inv, Get, Write;
    if v.def.Some? {
      var i := v.def.value;
      WriteGood(v, v.table, i, EntryOf(v, i).(dflt := false));
    }
  }

  lemma ClearDefaultFrame(v: Volume)
    requires Sound(v)
    ensures ClearDefault(v).(def := v.def, cache := v.cache, modified := v.modified) == v
  {}

  lemma SetDefaultGood(v: Volume, k: Digest)
    requires Good(v)
    ensures Good(SetDefault(v, k).0)
    ensures SetDefault(v, k).1 ==> forall j: nat :: j < |v.table.slots| ==>
      EntryOf(SetDefault(v, k).0, j) == EntryOf(v, j).(dflt := Some(j) == SetDefault(v, k).0.def)
  {
    hide Inv, Get, Put, Lookup;
    ClearDefaultFrame(v);
    var r := Lookup(v.table, k[..v.table.hlen]);
    if r.Slot? {
      var w := ClearDefault(v);
      ClearDefaultGood(v);
      var u := w.(def := Some(r.i));
      assert Good(u);
      WriteGood(u, u.table, r.i, EntryOf(w, r.i).(dflt := true));
    }
  }

  lemma StepGood(v: Volume, action: Action)
    requires Good(v)
    ensures Good(After(v, action))
  {
    hide Inv, Get, Write, Insert;
    match action
    case DoAddFile(k, fsize, ready, copied) =>
      var csize := DivRoundUp(fsize, v.chunkSize);
      var cchk := Al.FirstFit(v.al, 0, v.size, csize);
      InsertGood(v.(al := Al.Register(v.al, cchk, csize)), k, cchk, 0, fsize, false);
    case DoAddLink(k, chunk, offset, len) => InsertGood(v, k, chunk, offset, len, true);
    case DoRmFile(k) => RmGood(v, k);
    case DoSetDefault(k) => SetDefaultGood(v, k);
    case DoClearDefault => ClearDefaultGood(v);
  }

  function AfterAll(v: Volume, actions: seq<Action>): (w: Volume)
    requires Sound(v)
    ensures Sound(w)
    decreases |actions|
  {
    if actions == [] then v
    else
      SoundStep(v, actions[0]);
      AfterAll(After(v, actions[0]), actions[1..])
  }

  lemma SoundStep(v: Volume, action: Action)
    requires Sound(v)
    ensures Sound(After(v, action))
  {}

  lemma {:induction false} RunGood(v: Volume, actions: seq<Action>)
    requires Good(v)
    ensures Good(AfterAll(v, actions))
    decreases |actions|
  {
    if actions != [] {
      StepGood(v, actions[0]);
      RunGood(After(v, actions[0]), actions[1..]);
    }
  }

  // ---------------------------------------------------------------- what lookups see

  function FindIn(v: Volume, k: Key): Option<HEntry>
    requires Sound(v)
  {
    Find(v.table, v.cache, v.per, k)
  }

  lemma FindExact(v: Volume, k: Key, i: nat)
    requires Good(v) && |k| == v.table.hlen && i < |v.table.slots|
    ensures InUse(v.table, i) && v.table.slots[i] == k ==> FindIn(v, k) == Some(EntryOf(v, i))
    ensures FindIn(v, k).Some? <==> Holds(v.table, k)
  {
    LookupExact(v.table, k, i);
  }

  /** Digests other than those of a changed slot are found as before. */
  lemma Transfer(v: Volume, w: Volume, i: nat, k: Key)
    requires Good(v) && Good(w) && w.table.hlen == v.table.hlen == |k| && i < |v.table.slots|
    requires |w.table.slots| == |v.table.slots|
    requires forall j: nat :: j < |v.table.slots| && j != i ==>
      w.table.slots[j] == v.table.slots[j] && EntryOf(w, j) == EntryOf(v, j)
    requires k != Nul(|k|) ==> w.table.slots[i] != k && v.table.slots[i] != k
    ensures FindIn(w, k) == FindIn(v, k)
  {
    LookupExact(v.table, k, i);
    LookupExact(w.table, k, i);
    if Holds(v.table, k) {
      var j :| InUse(v.table, j) && v.table.slots[j] == k;
      FindExact(v, k, j);
      FindExact(w, k, j);
    } else if Holds(w.table, k) {
      var j :| InUse(w.table, j) && w.table.slots[j] == k;
      assert InUse(v.table, j);
    }
  }

  /** An added entry is found under its digest, and all others as before. */
  lemma InsertFinds(v: Volume, k: Digest, chunk: nat, offset: nat, len: nat, link: bool, k1: Key)
    requires Good(v) && Accepts(v, k) && |k1| == v.table.hlen
    ensures var r := Insert(v, k, chunk, offset, len, link);
      r.Some? && FindIn(r.value.0, k1) ==
        if k1 == k[..v.table.hlen] then Some(EntryOf(r.value.0, r.value.1)) else FindIn(v, k1)
  {
    hide Inv, Lookup, Get, Insert;
    InsertGood(v, k, chunk, offset, len, link);
    var (w, i) := Insert(v, k, chunk, offset, len, link).value;
    if k1 == k[..v.table.hlen] {
      FindExact(w, k1, i);
    } else {
      Transfer(v, w, i, k1);
    }
  }

  /** A removed entry is not found any more, and all others as before. */
  lemma RmFinds(v: Volume, k: Digest, k1: Key)
    requires Good(v) && |k1| == v.table.hlen && RmFile(v, k).1
    ensures FindIn(RmFile(v, k).0, k1) == if k1 == k[..v.table.hlen] then None else FindIn(v, k1)
  {
    var key := k[..v.table.hlen];
    RmGood(v, k);
    var i := Lookup(v.table, key).i;
    var w := RmFile(v, k).0;
    RmExact(v.table, i);
    hide RmFile, Inv, Shape, Lookup, Get;
    if k1 == key {
      FindExact(w, k1, i);
    } else {
      Transfer(v, w, i, k1);
    }
  }

  // ---------------------------------------------------------------- writing back and mounting

  /** What is written back is the cached table, in both copies. */
  lemma WrittenBack(v: Volume)
    requires Good(v)
    ensures WriteBack(v).disk == v.cache && (v.bak.Some? ==> WriteBack(v).bak == Some(v.cache))
  {
    assert Written(v.disk, v.cache, v.modified) == v.cache;
    if v.bak.Some? { assert Written(v.bak.value, v.cache, v.modified) == v.cache; }
  }

  /** Mounting the image of a volume gives the same slots, entries and lookups. */
  ghost predicate Restored(v: Volume, reserved: seq<Al.Interval>)
    requires Sound(v)
  {
    && Sized(WriteBack(v).disk, v.per, |v.table.slots|)
    && var w := Load(WriteBack(v), reserved);
    && Good(w) && w.table.hlen == v.table.hlen && w.table.slots == v.table.slots && w.cache == v.cache
    && forall k :: |k| == v.table.hlen ==> FindIn(w, k) == FindIn(v, k)
  }

  /** Writing back only the marked chunks and mounting again gives the same map from digests
      to entries. */
  lemma RoundTrip(v: Volume, reserved: seq<Al.Interval>)
    requires Good(v)
    ensures Restored(v, reserved)
  {
    hide Get, Registered;
    hide Home, Lookup;
    WrittenBack(v);
    var w := Load(WriteBack(v), reserved);
    LoadedListed(v.cache, v.per, v.table.nbBkts, v.table.elPerBkt, v.table.hlen);
    assert w.table.slots == v.table.slots;
    SameInv(v.table, w.table);
    assert Good(w);
  }

  /** The order of the list does not matter for lookups. */
  lemma SameInv(t: Table, t1: Table)
    requires Inv(t) && Shape(t1) && Listed(t1) && t1.(order := t.order) == t
    ensures Inv(t1) && forall k: Key :: |k| == t.hlen ==> Lookup(t1, k) == Lookup(t, k)
  {
    assert forall i :: InUse(t1, i) <==> InUse(t, i);
  }

  /** So it does after any actions of the tools. */
  lemma RunRoundTrip(v: Volume, actions: seq<Action>, reserved: seq<Al.Interval>)
    requires Good(v)
    ensures Restored(AfterAll(v, actions), reserved)
  {
    RunGood(v, actions);
    RoundTrip(AfterAll(v, actions), reserved);
  }
}
