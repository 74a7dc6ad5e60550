/** What the tools do to a mounted volume: the bucket table, the cached entries with their
    marks, the default entry and the allocator's list; and the image that is written back. */
module AdminSpec {
  import opened Types
  import opened HashWords
  import opened TableSpec
  import opened TableImage
  import Al = AllocSpec

  datatype Volume = Volume(table: Table, per: nat, cache: Image, modified: seq<bool>, def: Option<nat>,
                           disk: Image, bak: Option<Image>, al: seq<Al.Interval>, size: nat, chunkSize: nat)

  /** `DIV_ROUND_UP`: the least number of pieces of size `b` that have room for `a`. */
  function DivRoundUp(a: nat, b: nat): (r: nat)
    requires 0 < b
    ensures a <= r * b < a + b
  {
    (a + b - 1) / b
  }

  ghost predicate Sound(v: Volume) {
    && Shape(v.table) && 0 < v.chunkSize
    && Sized(v.cache, v.per, |v.table.slots|) && |v.modified| == |v.disk| == |v.cache|
    && (v.bak.Some? ==> |v.bak.value| == |v.cache|)
    && (v.def.Some? ==> v.def.value < |v.table.slots|)
  }

  /** The cached entry of a slot. */
  function EntryOf(v: Volume, i: nat): HEntry
    requires Sound(v) && i < |v.table.slots|
  {
    Get(v.cache, v.per, i)
  }

  // ---------------------------------------------------------------- operations

  /** An entry is overwritten in the cache and its chunk marked. */
  function Write(v: Volume, i: nat, e: HEntry): (w: Volume)
    requires Sound(v) && i < |v.table.slots|
    ensures Sound(w) && w.(cache := v.cache, modified := v.modified) == v
  {
    PutGet(v.cache, v.per, |v.table.slots|, i, e);
    v.(cache := Put(v.cache, v.per, i, e), modified := v.modified[Chk(i, v.per) := true])
  }

  /** A new entry: the digest must not be there yet and its bucket must have room. */
  function Insert(v: Volume, k: Digest, chunk: nat, offset: nat, len: nat, link: bool): (r: Option<(Volume, nat)>)
    requires Sound(v)
    ensures r.Some? ==> Sound(r.value.0) && r.value.1 < |v.table.slots| == |r.value.0.table.slots|
  {
    var key := k[..v.table.hlen];
    if Lookup(v.table, key).Slot? then None
    else
      AddShape(v.table, key);
      var (t, r) := Add(v.table, key);
      if r.Fail? then None
      else
        var e := HEntry(CopyOf(EntryOf(v, r.i).hash, k, v.table.hlen), chunk, offset, len, link, false);
        Some((Write(v.(table := t), r.i, e), r.i))
  }

  lemma AddShape(t: Table, k: Key)
    requires Shape(t) && |k| == t.hlen
    ensures Shape(Add(t, k).0) && Add(t, k).0.hlen == t.hlen
  {}

  /** `actn_addfile`. `ready` says that the buffer was allocated and the digest computed,
      `copied` that the contents were written. */
  function AddFile(v: Volume, k: Digest, fsize: nat, ready: bool, copied: bool): (r: (Volume, bool))
    requires Sound(v)
  {
    var csize := DivRoundUp(fsize, v.chunkSize);
    var cchk := Al.FirstFit(v.al, 0, v.size, csize);
    if cchk == 0 || v.size <= cchk then (v, false)
    else
      var w := v.(al := Al.Register(v.al, cchk, csize));
      var failed := w.(al := Al.Unregister(w.al, cchk, csize));
      if !ready then (failed, false)
      else
        var r := Insert(w, k, cchk, 0, fsize, false);
        if r.None? then (failed, false)
        else if copied then (r.value.0, true)
        else (r.value.0.(al := Al.Unregister(w.al, cchk, csize)), false)
  }

  /** `actn_addlink`, with the bytes of the link's attributes. */
  function AddLink(v: Volume, k: Digest, chunk: nat, offset: nat, len: nat): (Volume, bool)
    requires Sound(v)
  {
    var r := Insert(v, k, chunk, offset, len, true);
    if r.None? then (v, false) else (r.value.0, true)
  }

  /** The size of an entry's container in chunks. */
  function Size(e: HEntry, chunkSize: nat): nat
    requires 0 < chunkSize
  {
    DivRoundUp(e.offset + e.len, chunkSize)
  }

  /** The area of the container of an entry. */
  function Block(e: HEntry, chunkSize: nat): Al.Interval
    requires 0 < chunkSize
  {
    Al.Interval(e.chunk, e.chunk + Size(e, chunkSize))
  }

  /** `actn_rmfile`. */
  function RmFile(v: Volume, k: Digest): (Volume, bool)
    requires Sound(v)
  {
    var r := Lookup(v.table, k[..v.table.hlen]);
    if r.Fail? then (v, false)
    else
      var e := EntryOf(v, r.i);
      if !e.link && Block(e, v.chunkSize) !in v.al then (v, false)
      else
        var al := if e.link then v.al else Al.Unregister(v.al, e.chunk, Size(e, v.chunkSize));
        var w := v.(al := al, table := Rm(v.table, r.i));
        (Write(w, r.i, e.(hash := ClearOf(e.hash, v.table.hlen))), true)
  }

  /** `actn_cleardefault`. */
  function ClearDefault(v: Volume): (w: Volume)
    requires Sound(v)
    ensures Sound(w) && w.table == v.table
  {
    if v.def.None? then v
    else Write(v, v.def.value, EntryOf(v, v.def.value).(dflt := false)).(def := None)
  }

  /** `actn_setdefault`. */
  function SetDefault(v: Volume, k: Digest): (Volume, bool)
    requires Sound(v)
  {
    var r := Lookup(v.table, k[..v.table.hlen]);
    if r.Fail? then (v, false)
    else
      var w := ClearDefault(v);
      (Write(w, r.i, EntryOf(w, r.i).(dflt := true)).(def := Some(r.i)), true)
  }

  /** The chunks of an image, replaced where they are marked. */
  function Written(m: Image, cache: Image, modified: seq<bool>): (r: Image)
    requires |m| == |cache| == |modified|
    ensures |r| == |m| && forall c :: 0 <= c < |r| ==> r[c] == if modified[c] then cache[c] else m[c]
  {
    seq(|m|, c requires 0 <= c < |m| => if modified[c] then cache[c] else m[c])
  }

  /** The write-back of `umount_shfs`. */
  function WriteBack(v: Volume): Volume
    requires Sound(v)
  {
    v.(disk := Written(v.disk, v.cache, v.modified),
       bak := if v.bak.Some? then Some(Written(v.bak.value, v.cache, v.modified)) else None)
  }

  /** `load_vol_alist`: the containers of all entries on the list join the reserved areas. */
  function Registered(al: seq<Al.Interval>, m: Image, per: nat, order: seq<nat>, n: nat,
                      chunkSize: nat): seq<Al.Interval>
    requires Sized(m, per, n) && 0 < chunkSize && forall j :: 0 <= j < |order| ==> order[j] < n
  {
    if order == [] then al
    else
      var e := Get(m, per, order[|order| - 1]);
      Al.Register(Registered(al, m, per, order[..|order| - 1], n, chunkSize),
                  e.chunk, Size(e, chunkSize))
  }

  /** The areas of the label and of the tables. */
  function Reserved(tableRef: nat, backupRef: nat, tableLen: nat): seq<Al.Interval> {
    var s := Al.Register(Al.Register([], 0, 2), tableRef, tableLen);
    if backupRef != 0 then Al.Register(s, backupRef, tableLen) else s
  }

  /** Mounting the image that a volume has on disk; `reserved` are the areas of the label and
      of the tables. */
  ghost function Load(v: Volume, reserved: seq<Al.Interval>): Volume
    requires Sound(v) && Sized(v.disk, v.per, |v.table.slots|)
  {
    var n := |v.table.slots|;
    var t := Loaded(v.disk, v.per, v.table.nbBkts, v.table.elPerBkt, v.table.hlen);
    v.(table := t, cache := v.disk, modified := seq(|v.disk|, _ => false),
       def := LastDefault(v.disk, v.per, n),
       al := Registered(reserved, v.disk, v.per, t.order, n, v.chunkSize))
  }
}
