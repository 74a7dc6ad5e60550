/** The bucket table as a value: slots of fixed buckets and the list of the slots in use.
    A table refines a set of digests as long as every digest is looked up before it is
    added. */
module TableSpec {
  import opened Types
  import opened Seqs
  import opened HashWords
  import Arith

  const ENOENT := 2
  const ENOBUFS := 105

  /** The bytes of a digest that are used. */
  type Key = seq<Byte>

  /** `slots[b * elPerBkt + i]` is element `i` of bucket `b`; `order` is the linked list. */
  datatype Table = Table(nbBkts: nat, elPerBkt: nat, hlen: nat, slots: seq<Key>, order: seq<nat>)

  datatype Found = Slot(i: nat) | Fail(errno: int)

  // ---------------------------------------------------------------- operations

  function BucketNo(k: Key, nbBkts: nat): (b: nat)
    requires 0 < nbBkts
    ensures b < nbBkts
  {
    Word(k[..Deciding(|k|)]) % nbBkts
  }

  /** The first slot of the bucket of a digest. */
  function Home(t: Table, k: Key): nat
    requires 0 < t.nbBkts
  {
    BucketNo(k, t.nbBkts) * t.elPerBkt
  }

  /** The first slot in a range that holds `k`, or the end of the range. */
  function Search(s: seq<Key>, k: Key, i: nat, end: nat): (r: nat)
    requires i <= end <= |s|
    ensures i <= r <= end && (r < end ==> s[r] == k)
    ensures forall j :: i <= j < r ==> s[j] != k
    decreases end - i
  {
    if i == end || s[i] == k then i else Search(s, k, i + 1, end)
  }

  ghost predicate Shape(t: Table) {
    0 < t.nbBkts && 0 < t.elPerBkt && t.hlen <= 64 && |t.slots| == t.nbBkts * t.elPerBkt
    && forall i :: 0 <= i < |t.slots| ==> |t.slots[i]| == t.hlen
  }

  lemma HomeInside(t: Table, k: Key)
    requires Shape(t)
    ensures Home(t, k) + t.elPerBkt <= |t.slots|
  {
    Arith.MulMono(BucketNo(k, t.nbBkts) + 1, t.nbBkts, t.elPerBkt);
  }

  /** `htable_lookup`. */
  function Lookup(t: Table, k: Key): (r: Found)
    requires Shape(t)
    ensures r.Slot? ==> InUse(t, r.i) && t.slots[r.i] == k
  {
    if k == Nul(t.hlen) then Fail(EINVAL)
    else
      HomeInside(t, k);
      var end := Home(t, k) + t.elPerBkt;
      var i := Search(t.slots, k, Home(t, k), end);
      if i < end then Slot(i) else Fail(ENOENT)
  }

  /** `htable_add`. */
  function Add(t: Table, k: Key): (r: (Table, Found))
    requires Shape(t)
    ensures r.1.Slot? ==> r.1.i < |r.0.slots| == |t.slots|
  {
    if k == Nul(t.hlen) then (t, Fail(EINVAL))
    else
      HomeInside(t, k);
      var end := Home(t, k) + t.elPerBkt;
      var i := Search(t.slots, Nul(t.hlen), Home(t, k), end);
      if i < end then (t.(slots := t.slots[i := k], order := t.order + [i]), Slot(i)) else (t, Fail(ENOBUFS))
  }

  /** `htable_lookup_add`; the flag is `is_new`. */
  function LookupAdd(t: Table, k: Key): (Table, Found, bool)
    requires Shape(t)
  {
    var r := Lookup(t, k);
    if r.Slot? then (t, r, false)
    else
      var (t1, r1) := Add(t, k);
      (t1, r1, r1.Slot?)
  }

  /** `htable_rm`. */
  function Rm(t: Table, i: nat): Table
    requires i < |t.slots|
  {
    t.(slots := t.slots[i := Nul(t.hlen)], order := Remove(t.order, i))
  }

  /** `htable_clear` clears the slots on the list. */
  function Clear(t: Table): Table {
    t.(slots := seq(|t.slots|, i requires 0 <= i < |t.slots| =>
                      if i in t.order then Nul(t.hlen) else t.slots[i]),
       order := [])
  }

  /** `shfs_btable_feed`: the slot gets a new digest and moves to the end of the list. */
  function Feed(t: Table, i: nat, k: Key): Table
    requires i < |t.slots|
  {
    t.(slots := t.slots[i := k],
       order := Remove(t.order, i) + if k == Nul(t.hlen) then [] else [i])
  }

  // ---------------------------------------------------------------- what holds of a table

  ghost predicate InUse(t: Table, i: int) {
    0 <= i < |t.slots| && t.slots[i] != Nul(t.hlen)
  }

  /** The list enumerates exactly the slots in use, each once. */
  ghost predicate Listed(t: Table) {
    NoDup(t.order) && forall i :: i in t.order <==> InUse(t, i)
  }

  /** Every slot in use lies in the bucket of its digest. */
  ghost predicate Placed(t: Table)
    requires Shape(t)
  {
    forall i :: InUse(t, i) ==> Home(t, t.slots[i]) <= i < Home(t, t.slots[i]) + t.elPerBkt
  }

  ghost predicate Unique(t: Table) {
    forall i, j :: InUse(t, i) && InUse(t, j) && t.slots[i] == t.slots[j] ==> i == j
  }

  ghost predicate Inv(t: Table) {
    Shape(t) && Listed(t) && Placed(t) && Unique(t)
  }

  /** The table holds `k`. */
  ghost predicate Holds(t: Table, k: Key) {
    exists i :: InUse(t, i) && t.slots[i] == k
  }

  /** Some slot of the bucket of `k` is free. */
  ghost predicate HasRoom(t: Table, k: Key)
    requires Shape(t)
  {
    exists i :: Home(t, k) <= i < Home(t, k) + t.elPerBkt && 0 <= i < |t.slots| && !InUse(t, i)
  }

  function Empty(nbBkts: nat, elPerBkt: nat, hlen: nat): Table {
    Table(nbBkts, elPerBkt, hlen, seq(nbBkts * elPerBkt, _ => Nul(hlen)), [])
  }

  lemma EmptyInv(nbBkts: nat, elPerBkt: nat, hlen: nat)
    requires 0 < nbBkts && 0 < elPerBkt && hlen <= 64
    ensures var t := Empty(nbBkts, elPerBkt, hlen); Inv(t) && forall k :: !Holds(t, k)
  {}

  /** A lookup finds a slot exactly if it is the one that holds the digest. */
  lemma LookupExact(t: Table, k: Key, i: nat)
    requires Inv(t) && |k| == t.hlen
    ensures Lookup(t, k) == Slot(i) <==> InUse(t, i) && t.slots[i] == k
    ensures Lookup(t, k).Slot? <==> Holds(t, k)
    ensures Lookup(t, k) == Fail(EINVAL) <==> k == Nul(t.hlen)
  {
    HomeInside(t, k);
  }

  /** An addition succeeds exactly if the bucket has room; it then takes a free slot, which
      becomes the last of the list. */
  lemma AddExact(t: Table, k: Key)
    requires Inv(t) && |k| == t.hlen
    ensures var (t1, r) := Add(t, k);
      && (r.Slot? <==> k != Nul(t.hlen) && HasRoom(t, k))
      && (r.Fail? ==> t1 == t && r.errno == if k == Nul(t.hlen) then EINVAL else ENOBUFS)
      && (r.Slot? ==> !InUse(t, r.i) && r.i < |t.slots| && t1.slots == t.slots[r.i := k] && t1.order == t.order + [r.i])
  {
    HomeInside(t, k);
    if k != Nul(t.hlen) {
      var end := Home(t, k) + t.elPerBkt;
      var i := Search(t.slots, Nul(t.hlen), Home(t, k), end);
      if i < end {
        assert !InUse(t, i);
      }
    }
  }

  /** The table stays proper exactly if the digest was not there already. */
  lemma AddInv(t: Table, k: Key)
    requires Inv(t) && |k| == t.hlen && Add(t, k).1.Slot?
    ensures Inv(Add(t, k).0) <==> !Holds(t, k)
  {
    hide Home;
    HomeInside(t, k);
    AddExact(t, k);
    var (t1, r) := Add(t, k);
    forall j ensures j in t1.order <==> InUse(t1, j) {}
    if Holds(t, k) {
      var j :| InUse(t, j) && t.slots[j] == k;
      assert InUse(t1, j) && InUse(t1, r.i) && t1.slots[j] == t1.slots[r.i] && j != r.i;
    } else {
      forall i, j | InUse(t1, i) && InUse(t1, j) && t1.slots[i] == t1.slots[j] ensures i == j {
        if i != r.i { Others(t, k, i); }
        if j != r.i { Others(t, k, j); }
      }
      forall i | InUse(t1, i) ensures Home(t1, t1.slots[i]) <= i < Home(t1, t1.slots[i]) + t1.elPerBkt {
        SameHome(t, t1, t1.slots[i]);
        if i != r.i { assert InUse(t, i); }
      }
    }
  }

  lemma Others(t: Table, k: Key, i: nat)
    requires InUse(t, i) && !Holds(t, k)
    ensures t.slots[i] != k
  {}

  lemma SameHome(t: Table, t1: Table, k: Key)
    requires 0 < t.nbBkts && t1.nbBkts == t.nbBkts && t1.elPerBkt == t.elPerBkt
    ensures Home(t, k) == Home(t1, k)
  {}

  /** A lookup that adds: the slot it names holds the digest afterwards, nothing else is added, and the
      digest is reported as new exactly if it was not there and could be added. */
  lemma LookupAddMeans(t: Table, k: Key, k1: Key)
    requires Inv(t) && |k| == t.hlen
    ensures var (t1, r, new_) := LookupAdd(t, k);
      && Inv(t1) && (new_ <==> k != Nul(t.hlen) && !Holds(t, k) && HasRoom(t, k))
      && (r.Slot? <==> Holds(t, k) || new_) && (r.Slot? ==> InUse(t1, r.i) && t1.slots[r.i] == k)
      && (!new_ ==> t1 == t) && (Holds(t1, k1) <==> Holds(t, k1) || (new_ && k1 == k))
  {
    LookupExact(t, k, 0);
    AddExact(t, k);
    hide Add, Lookup, Home, HasRoom, Placed, Unique, Listed;
    if Lookup(t, k).Fail? && Add(t, k).1.Slot? {
      AddInv(t, k);
      AddHolds(t, k, k1);
    }
  }

  /** An addition adds exactly its digest. */
  lemma AddHolds(t: Table, k: Key, k1: Key)
    requires Inv(t) && |k| == t.hlen && Add(t, k).1.Slot?
    ensures Holds(Add(t, k).0, k1) <==> Holds(t, k1) || k1 == k
  {
    AddExact(t, k);
    var (t1, r) := Add(t, k);
    hide Add, Home;
    assert InUse(t1, r.i) && t1.slots[r.i] == k;
    if Holds(t, k1) {
      var j :| InUse(t, j) && t.slots[j] == k1;
      assert InUse(t1, j) && t1.slots[j] == k1;
    }
    if Holds(t1, k1) && k1 != k {
      var j :| InUse(t1, j) && t1.slots[j] == k1;
      assert InUse(t, j) && t.slots[j] == k1;
    }
  }

  /** A removal takes out exactly the digest of its slot. */
  lemma RmExact(t: Table, i: nat)
    requires Inv(t) && InUse(t, i)
    ensures Inv(Rm(t, i))
    ensures forall k :: Holds(Rm(t, i), k) <==> Holds(t, k) && k != t.slots[i]
  {
    hide Home;
    var t1 := Rm(t, i);
    RemoveNoDup(t.order, i);
    assert forall j :: InUse(t1, j) <==> InUse(t, j) && j != i;
    forall k ensures Holds(t1, k) <==> Holds(t, k) && k != t.slots[i] {
      if Holds(t, k) && k != t.slots[i] {
        var j :| InUse(t, j) && t.slots[j] == k;
        assert InUse(t1, j) && t1.slots[j] == k;
      }
      if Holds(t1, k) {
        var j :| InUse(t1, j) && t1.slots[j] == k;
        assert InUse(t, j) && t.slots[j] == k;
      }
    }
    forall j | InUse(t1, j) ensures Home(t1, t1.slots[j]) <= j < Home(t1, t1.slots[j]) + t1.elPerBkt {
      SameHome(t, t1, t1.slots[j]);
    }
  }

  /** Removing what was just added restores the table. */
  lemma AddRm(t: Table, k: Key)
    requires Inv(t) && |k| == t.hlen && Add(t, k).1.Slot?
    ensures Rm(Add(t, k).0, Add(t, k).1.i) == t
  {
    hide Home;
    AddExact(t, k);
    RemoveAppended(t.order, Add(t, k).1.i);
  }

  lemma ClearInv(t: Table)
    requires Inv(t)
    ensures Clear(t) == Empty(t.nbBkts, t.elPerBkt, t.hlen)
  {
    hide Home;
    forall i | 0 <= i < |t.slots| ensures Clear(t).slots[i] == Nul(t.hlen) {
      assert i in t.order <==> InUse(t, i);
    }
  }

  /** Feeding keeps the list exact, whatever the digests are. */
  lemma FeedListed(t: Table, i: nat, k: Key)
    requires Shape(t) && Listed(t) && i < |t.slots| && |k| == t.hlen
    ensures Shape(Feed(t, i, k)) && Listed(Feed(t, i, k))
  {
    var t1 := Feed(t, i, k);
    RemoveNoDup(t.order, i);
    assert forall j :: InUse(t1, j) <==> if j == i then k != Nul(t.hlen) else InUse(t, j);
  }

  // ---------------------------------------------------------------- runs

  datatype Op = DoInsert(k: Key) | DoDelete(k: Key)

  /** One action of the tools: an addition after a failed lookup, or a removal after a
      successful one. */
  function Next(t: Table, op: Op): (t1: Table)
    requires Shape(t) && |op.k| == t.hlen
    ensures Shape(t1) && t1.hlen == t.hlen
  {
    match op
    case DoInsert(k) => if Lookup(t, k).Slot? then t else Add(t, k).0
    case DoDelete(k) => var r := Lookup(t, k); if r.Slot? then Rm(t, r.i) else t
  }

  /** The table refuses a digest if it is zero, or if it is new and its bucket is full. */
  ghost predicate Refuses(t: Table, op: Op)
    requires Shape(t)
  {
    op.DoInsert? && (op.k == Nul(t.hlen) || (!Holds(t, op.k) && !HasRoom(t, op.k)))
  }

  /** What an action does to a set of digests. */
  ghost function Meaning(s: set<Key>, op: Op, refused: bool): set<Key> {
    match op
    case DoInsert(k) => if refused then s else s + {k}
    case DoDelete(k) => s - {k}
  }

  ghost predicate Abstracts(s: set<Key>, t: Table) {
    forall k :: k in s <==> Holds(t, k)
  }

  lemma StepRefines(t: Table, op: Op, s: set<Key>)
    requires Inv(t) && |op.k| == t.hlen && Abstracts(s, t)
    ensures Inv(Next(t, op)) && Abstracts(Meaning(s, op, Refuses(t, op)), Next(t, op))
  {
    var k := op.k;
    LookupExact(t, k, 0);
    AddExact(t, k);
    if op.DoInsert? && Lookup(t, k).Fail? && Add(t, k).1.Slot? {
      AddInv(t, k);
      forall k1 ensures Holds(Add(t, k).0, k1) <==> Holds(t, k1) || k1 == k { AddHolds(t, k, k1); }
    } else if op.DoDelete? && Lookup(t, k).Slot? {
      LookupExact(t, k, Lookup(t, k).i);
      RmExact(t, Lookup(t, k).i);
    }
  }

  ghost predicate Digests(ops: seq<Op>, hlen: nat) {
    forall i :: 0 <= i < |ops| ==> |ops[i].k| == hlen
  }

  function Run(t: Table, ops: seq<Op>): Table
    requires Shape(t) && Digests(ops, t.hlen)
    decreases |ops|
  {
    if ops == [] then t else Run(Next(t, ops[0]), ops[1..])
  }

  ghost function Denotes(t: Table, ops: seq<Op>, s: set<Key>): set<Key>
    requires Shape(t) && Digests(ops, t.hlen)
    decreases |ops|
  {
    if ops == [] then s else Denotes(Next(t, ops[0]), ops[1..], Meaning(s, ops[0], Refuses(t, ops[0])))
  }

  /** After any actions on an empty table, a lookup finds a digest exactly if it is in the set
      that the actions denote. */
  lemma {:induction false} RunRefines(t: Table, ops: seq<Op>, s: set<Key>)
    requires Inv(t) && Digests(ops, t.hlen) && Abstracts(s, t)
    ensures Inv(Run(t, ops)) && Abstracts(Denotes(t, ops, s), Run(t, ops))
    decreases |ops|
  {
    hide Next, Meaning, Home, Refuses, Unique, Placed, Listed, Shape;
    if ops != [] {
      StepRefines(t, ops[0], s);
      RunRefines(Next(t, ops[0]), ops[1..], Meaning(s, ops[0], Refuses(t, ops[0])));
    }
  }

  lemma RunFromEmpty(nbBkts: nat, elPerBkt: nat, hlen: nat, ops: seq<Op>, k: Key)
    requires 0 < nbBkts && 0 < elPerBkt && hlen <= 64 && Digests(ops, hlen) && |k| == hlen
    ensures var t := Empty(nbBkts, elPerBkt, hlen);
      Inv(t) && Inv(Run(t, ops)) && (k in Denotes(t, ops, {}) <==> Lookup(Run(t, ops), k).Slot?)
  {
    var t := Empty(nbBkts, elPerBkt, hlen);
    EmptyInv(nbBkts, elPerBkt, hlen);
    RunRefines(t, ops, {});
    RunShape(t, ops);
    LookupExact(Run(t, ops), k, 0);
  }

  lemma {:induction false} RunShape(t: Table, ops: seq<Op>)
    requires Shape(t) && Digests(ops, t.hlen)
    ensures Run(t, ops).hlen == t.hlen
    decreases |ops|
  {
    hide Next;
    if ops != [] { RunShape(Next(t, ops[0]), ops[1..]); }
  }
}
