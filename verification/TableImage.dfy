/** The hash table as it lies on the volume: entries packed into chunks; and what loading such
    an image makes of the bucket table. */
module TableImage {
  import opened Types
  import opened Seqs
  import opened HashWords
  import opened TableSpec

  /** `shfs_hentry`. A link overlays the file attributes, so its bytes read as attributes
      too; names, types and time stamps are not modelled. */
  datatype HEntry = HEntry(hash: Digest, chunk: nat, offset: nat, len: nat, link: bool, dflt: bool)

  type Image = seq<seq<HEntry>>

  /** `SHFS_HTABLE_CHUNK_NO` and the number of the entry in its chunk. */
  function Chk(i: nat, per: nat): nat
    requires 0 < per
  {
    i / per
  }

  function Off(i: nat, per: nat): (o: nat)
    requires 0 < per
    ensures o < per
  {
    i % per
  }

  /** The image has whole chunks and a place for each of `n` entries. */
  ghost predicate Sized(m: Image, per: nat, n: nat) {
    && 0 < per
    && (forall c :: 0 <= c < |m| ==> |m[c]| == per)
    && (forall i: nat :: i < n ==> Chk(i, per) < |m|)
  }

  function Get(m: Image, per: nat, i: nat): HEntry
    requires 0 < per && Chk(i, per) < |m| && |m[Chk(i, per)]| == per
  {
    m[Chk(i, per)][Off(i, per)]
  }

  function Put(m: Image, per: nat, i: nat, e: HEntry): Image
    requires 0 < per && Chk(i, per) < |m| && |m[Chk(i, per)]| == per
  {
    m[Chk(i, per) := m[Chk(i, per)][Off(i, per) := e]]
  }

  /** The places of different entries differ. */
  lemma Places(i: nat, j: nat, per: nat)
    requires 0 < per
    ensures Chk(i, per) == Chk(j, per) && Off(i, per) == Off(j, per) <==> i == j
  {
    assert i == Chk(i, per) * per + Off(i, per) && j == Chk(j, per) * per + Off(j, per);
  }

  lemma PutGet(m: Image, per: nat, n: nat, i: nat, e: HEntry)
    requires Sized(m, per, n) && i < n
    ensures Sized(Put(m, per, i, e), per, n)
    ensures forall j: nat :: j < n ==> Get(Put(m, per, i, e), per, j) == if j == i then e else Get(m, per, j)
  {
    forall j: nat | j < n ensures Get(Put(m, per, i, e), per, j) == if j == i then e else Get(m, per, j) {
      Places(i, j, per);
    }
  }

  // ---------------------------------------------------------------- loading

  /** The digests of the first `k` entries. */
  function Hashes(m: Image, per: nat, k: nat, hlen: nat): (s: seq<Key>)
    requires Sized(m, per, k) && hlen <= 64
    ensures |s| == k && forall i: nat :: i < k ==> s[i] == Get(m, per, i).hash[..hlen]
  {
    seq(k, i requires 0 <= i < k => Get(m, per, i).hash[..hlen])
  }

  /** The slots in use among the first `k`, in order. */
  function Used(s: seq<Key>, hlen: nat, k: nat): (l: seq<nat>)
    requires k <= |s|
    ensures forall i :: i in l <==> 0 <= i < k && s[i] != Nul(hlen)
    ensures forall j :: 0 <= j < |l| ==> l[j] in l
  {
    if k == 0 then []
    else if s[k - 1] == Nul(hlen) then Used(s, hlen, k - 1) else Used(s, hlen, k - 1) + [k - 1]
  }

  lemma {:induction false} UsedNoDup(s: seq<Key>, hlen: nat, k: nat)
    requires k <= |s|
    ensures NoDup(Used(s, hlen, k))
  {
    if k > 0 { UsedNoDup(s, hlen, k - 1); }
  }

  /** The last of the first `k` entries that is marked as the default. */
  function LastDefault(m: Image, per: nat, k: nat): (r: Option<nat>)
    requires Sized(m, per, k)
    ensures r.Some? ==> r.value < k && Get(m, per, r.value).dflt
    ensures forall i: nat :: i < k && Get(m, per, i).dflt ==> r.Some? && i <= r.value
  {
    if k == 0 then None else if Get(m, per, k - 1).dflt then Some(k - 1) else LastDefault(m, per, k - 1)
  }

  /** The bucket table of an image: its digests, and the slots in use in order. */
  ghost function Loaded(m: Image, per: nat, nbBkts: nat, elPerBkt: nat, hlen: nat): Table
    requires Sized(m, per, nbBkts * elPerBkt) && hlen <= 64
  {
    var s := Hashes(m, per, nbBkts * elPerBkt, hlen);
    Table(nbBkts, elPerBkt, hlen, s, Used(s, hlen, |s|))
  }

  lemma LoadedListed(m: Image, per: nat, nbBkts: nat, elPerBkt: nat, hlen: nat)
    requires 0 < nbBkts && 0 < elPerBkt && hlen <= 64 && Sized(m, per, nbBkts * elPerBkt)
    ensures Shape(Loaded(m, per, nbBkts, elPerBkt, hlen)) && Listed(Loaded(m, per, nbBkts, elPerBkt, hlen))
  {
    var t := Loaded(m, per, nbBkts, elPerBkt, hlen);
    UsedNoDup(t.slots, hlen, |t.slots|);
  }

  /** What a lookup in a volume yields: the entry of the slot that was found. */
  function Find(t: Table, m: Image, per: nat, k: Key): Option<HEntry>
    requires Shape(t) && Sized(m, per, |t.slots|)
  {
    var r := Lookup(t, k);
    if r.Slot? then Some(Get(m, per, r.i)) else None
  }
}
