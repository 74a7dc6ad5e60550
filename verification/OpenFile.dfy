/** Opening, cloning and closing files while a remount replaces the meta data of entries. */
module OpenFile {
  import opened Types
  import opened TableImage

  const EBUSY := 16

  /** The part of `shfs_bentry` that the protocol uses; `lock` is the count of the semaphore
      `updatelock`. */
  datatype Entry = Entry(refcount: nat, lock: nat, update: bool, cookie: Option<nat>, meta: HEntry)

  /** Where the thread that remounts stands: nowhere, waiting until an entry is closed, about to
      replace its meta data, or done with that. */
  datatype Remounter = Idle | Waiting(i: nat, meta: HEntry) | Locked(i: nat, meta: HEntry) | Copied(i: nat)

  datatype State = State(entries: seq<Entry>, nbOpen: int, remount: Remounter)

  datatype Step =
    | DoOpen(i: nat)
    | DoClone(i: nat)
    | DoClose(i: nat)
    | DoSetCookie(i: nat, cookie: nat)
    | DoBegin(i: nat, meta: HEntry)
    | DoDown
    | DoCopy
    | DoFinish

  // ---------------------------------------------------------------- steps

  /** `_shfs_fio_open_bentry`; taking the lock may fail, and nobody asks. */
  function Open(e: Entry): (Entry, bool) {
    if e.update then (e, false)
    else if e.refcount == 0 then
      (e.(lock := if e.lock > 0 then e.lock - 1 else 0, cookie := None, refcount := 1), true)
    else (e.(refcount := e.refcount + 1), true)
  }

  /** `shfs_fio_close`. */
  function Close(e: Entry): Entry
    requires 0 < e.refcount
  {
    e.(refcount := e.refcount - 1, lock := if e.refcount == 1 then e.lock + 1 else e.lock)
  }

  /** Handles are given back only while they are held; the remounter goes on only when the
      semaphore lets it. */
  ghost predicate Enabled(s: State, step: Step) {
    match step
    case DoOpen(i) => i < |s.entries|
    case DoClone(i) => i < |s.entries| && 0 < s.entries[i].refcount
    case DoClose(i) => i < |s.entries| && 0 < s.entries[i].refcount
    case DoSetCookie(i, c) => i < |s.entries| && 0 < s.entries[i].refcount
    case DoBegin(i, meta) => i < |s.entries| && s.remount == Idle
    case DoDown => s.remount.Waiting? && s.remount.i < |s.entries| && 0 < s.entries[s.remount.i].lock
    case DoCopy => s.remount.Locked? && s.remount.i < |s.entries|
    case DoFinish => s.remount.Copied? && s.remount.i < |s.entries|
  }

  function Next(s: State, step: Step): State
    requires Enabled(s, step)
  {
    match step
    case DoOpen(i) =>
      var (e, ok) := Open(s.entries[i]);
      s.(entries := s.entries[i := e], nbOpen := if ok then s.nbOpen + 1 else s.nbOpen)
    case DoClone(i) =>
      s.(entries := s.entries[i := s.entries[i].(refcount := s.entries[i].refcount + 1)], nbOpen := s.nbOpen + 1)
    case DoClose(i) =>
      s.(entries := s.entries[i := Close(s.entries[i])], nbOpen := s.nbOpen - 1)
    case DoSetCookie(i, c) =>
      var e := s.entries[i];
      s.(entries := s.entries[i := if e.cookie.Some? then e else e.(cookie := Some(c))])
    case DoBegin(i, meta) =>
      s.(entries := s.entries[i := s.entries[i].(update := true)], remount := Waiting(i, meta))
    case DoDown =>
      var i := s.remount.i;
      s.(entries := s.entries[i := s.entries[i].(lock := s.entries[i].lock - 1)],
         remount := Locked(i, s.remount.meta))
    case DoCopy =>
      var i := s.remount.i;
      s.(entries := s.entries[i := s.entries[i].(meta := s.remount.meta)], remount := Copied(i))
    case DoFinish =>
      var i := s.remount.i;
      s.(entries := s.entries[i := s.entries[i].(lock := s.entries[i].lock + 1, update := false)], remount := Idle)
  }

  // ---------------------------------------------------------------- what every step keeps

  function Handles(es: seq<Entry>): nat {
    if es == [] then 0 else Handles(es[..|es| - 1]) + es[|es| - 1].refcount
  }

  lemma {:induction false} HandlesUpdate(es: seq<Entry>, i: nat, e: Entry)
    requires i < |es|
    ensures Handles(es[i := e]) == Handles(es) - es[i].refcount + e.refcount
    ensures es[i].refcount <= Handles(es)
  {
    var n := |es| - 1;
    if i == n {
      assert es[i := e][..n] == es[..n];
    } else {
      assert es[i := e][..n] == es[..n][i := e];
      HandlesUpdate(es[..n], i, e);
    }
  }

  ghost predicate Concerns(r: Remounter, i: int) {
    r != Idle && r.i == i
  }

  ghost predicate Updating(r: Remounter, i: int) {
    (r.Locked? || r.Copied?) && r.i == i
  }

  /** The semaphore is taken exactly while the entry is open or being updated, and never for
      both at once. */
  ghost predicate EntryOk(s: State, i: int)
    requires 0 <= i < |s.entries|
  {
    var e := s.entries[i];
    && e.lock + (if 0 < e.refcount then 1 else 0) + (if Updating(s.remount, i) then 1 else 0) == 1
    && (e.update <==> Concerns(s.remount, i))
  }

  ghost predicate Inv(s: State) {
    && (forall i :: 0 <= i < |s.entries| ==> EntryOk(s, i))
    && s.nbOpen == Handles(s.entries)
    && (s.remount != Idle ==> s.remount.i < |s.entries|)
  }

  ghost predicate Initial(s: State) {
    && s.nbOpen == 0 && s.remount == Idle
    && forall i :: 0 <= i < |s.entries| ==> s.entries[i].refcount == 0 && s.entries[i].lock == 1 && !s.entries[i].update
  }

  lemma {:induction false} NoHandles(es: seq<Entry>)
    requires forall i :: 0 <= i < |es| ==> es[i].refcount == 0
    ensures Handles(es) == 0
  {
    if es != [] { NoHandles(es[..|es| - 1]); }
  }

  lemma InitialInv(s: State)
    requires Initial(s)
    ensures Inv(s)
  {
    NoHandles(s.entries);
  }

  lemma StepInv(s: State, step: Step)
    requires Inv(s) && Enabled(s, step)
    ensures Inv(Next(s, step))
  {
    hide Handles;
    var i := if step.DoDown? || step.DoCopy? || step.DoFinish? then s.remount.i else step.i;
    var t := Next(s, step);
    HandlesUpdate(s.entries, i, t.entries[i]);
    assert EntryOk(s, i);
    forall j | 0 <= j < |t.entries| ensures EntryOk(t, j) {
      if j != i { assert EntryOk(s, j) && t.entries[j] == s.entries[j]; }
    }
  }

  /** No step replaces the meta data of an open entry, nor lets one be opened whose meta data is
      being replaced. */
  lemma StepStable(s: State, step: Step, i: nat)
    requires Inv(s) && Enabled(s, step) && i < |s.entries|
    ensures var e, e1 := s.entries[i], Next(s, step).entries[i];
      && (e1.meta != e.meta ==> e.refcount == e1.refcount == 0 && e.update && e1.update)
      && (e.refcount == 0 < e1.refcount ==> step == DoOpen(i) && !e.update && e.lock == 1 && e1.cookie == None)
      && (step == DoOpen(i) ==> (e1 != e <==> !e.update))
  {
    assert EntryOk(s, i);
  }

  /** No step but the copy of the remounter changes any meta data, and that one gives its entry
      what the update began with. */
  lemma OnlyCopy(s: State, step: Step, j: nat)
    requires Enabled(s, step) && j < |s.entries|
    ensures |Next(s, step).entries| == |s.entries|
    ensures Next(s, step).entries[j].meta ==
      if step == DoCopy && j == s.remount.i then s.remount.meta else s.entries[j].meta
  {}

  /** Opening counts unless the entry is being updated, cloning always counts, closing takes one
      back; a cookie stays until the entry is opened anew, and only the first one is taken. */
  lemma StepCounts(s: State, step: Step, j: nat)
    requires Enabled(s, step) && j < |s.entries|
    ensures var e, e1 := s.entries[j], Next(s, step).entries[j];
      && e1.refcount - e.refcount ==
           (if step == DoClone(j) || (step == DoOpen(j) && !e.update) then 1 else if step == DoClose(j) then -1 else 0)
      && (step == DoSetCookie(j, if step.DoSetCookie? then step.cookie else 0) && e.cookie == None ==>
            e1.cookie == Some(step.cookie))
      && (step == DoOpen(j) && !e.update && e.refcount == 0 ==> e1.cookie == None)
      && (e1.cookie != e.cookie ==> (step.DoSetCookie? && e.cookie == None) || step == DoOpen(j))
  {}

  /** The lock tells whether the entry is in use. */
  lemma LockExact(s: State, i: nat)
    requires Inv(s) && i < |s.entries|
    ensures s.entries[i].lock == 0 <==> 0 < s.entries[i].refcount || Updating(s.remount, i)
    ensures s.entries[i].lock <= 1 && !(0 < s.entries[i].refcount && Updating(s.remount, i))
  {
    assert EntryOk(s, i);
  }

  /** A remounter that waits can go on as soon as the entry is closed, and while it waits only
      clones of open handles can keep it waiting. */
  lemma WaitEnds(s: State, step: Step)
    requires Inv(s) && s.remount.Waiting?
    ensures s.entries[s.remount.i].refcount == 0 <==> Enabled(s, DoDown)
    ensures Enabled(s, step) && step != DoClone(s.remount.i) ==>
      Next(s, step).entries[s.remount.i].refcount <= s.entries[s.remount.i].refcount
  {
    assert EntryOk(s, s.remount.i);
  }

  // ---------------------------------------------------------------- runs

  ghost predicate Run(states: seq<State>, steps: seq<Step>) {
    && |states| == |steps| + 1 && Initial(states[0])
    && forall k :: 0 <= k < |steps| ==> Enabled(states[k], steps[k]) && states[k + 1] == Next(states[k], steps[k])
  }

  lemma {:induction false} RunInv(states: seq<State>, steps: seq<Step>, k: nat)
    requires Run(states, steps) && k < |states|
    ensures Inv(states[k]) && |states[k].entries| == |states[0].entries|
  {
    if k == 0 {
      InitialInv(states[0]);
    } else {
      RunInv(states, steps, k - 1);
      StepInv(states[k - 1], steps[k - 1]);
    }
  }

  /** As long as an entry is open its meta data stays the same, whatever the other threads do. */
  lemma {:induction false} OpenStable(states: seq<State>, steps: seq<Step>, i: nat, a: nat, b: nat)
    requires Run(states, steps) && a <= b < |states| && i < |states[0].entries|
    requires forall k :: a <= k <= b ==> |states[k].entries| == |states[0].entries|
    requires forall k :: a <= k <= b ==> 0 < states[k].entries[i].refcount
    ensures states[b].entries[i].meta == states[a].entries[i].meta
    decreases b - a
  {
    hide Next, Enabled;
    if a < b {
      RunInv(states, steps, b - 1);
      StepStable(states[b - 1], steps[b - 1], i);
      OpenStable(states, steps, i, a, b - 1);
    }
  }

  /** Where an update of entry `i` stands that began in state `s`: no meta data is changed before
      the copy, and only that of the entry after it. */
  ghost predicate Underway(s: State, t: State, i: nat, meta: HEntry) {
    && i < |s.entries| == |t.entries|
    && match t.remount
       case Idle => false
       case Waiting(j, m) => j == i && m == meta && SameMeta(s, t, |s.entries|)
       case Locked(j, m) => j == i && m == meta && SameMeta(s, t, |s.entries|)
       case Copied(j) => j == i && t.entries[i].meta == meta && SameMeta(s, t, i)
  }

  /** The meta data is the same but for that of entry `x`. */
  ghost predicate SameMeta(s: State, t: State, x: nat) {
    |s.entries| == |t.entries|
    && forall j :: 0 <= j < |s.entries| && j != x ==> t.entries[j].meta == s.entries[j].meta
  }

  lemma UnderwayStep(s: State, t: State, step: Step, i: nat, meta: HEntry)
    requires Underway(s, t, i, meta) && Enabled(t, step) && step != DoFinish
    ensures Underway(s, Next(t, step), i, meta)
  {
    forall j: nat | j < |t.entries|
      ensures Next(t, step).entries[j].meta ==
        if step == DoCopy && j == t.remount.i then t.remount.meta else t.entries[j].meta
    {
      OnlyCopy(t, step, j);
    }
  }

  lemma UnderwayStart(s: State, i: nat, meta: HEntry)
    requires Enabled(s, DoBegin(i, meta))
    ensures Underway(s, Next(s, DoBegin(i, meta)), i, meta)
  {}

  lemma {:induction false} UpdateUnderway(states: seq<State>, steps: seq<Step>, i: nat, meta: HEntry, a: nat, k: nat)
    requires Run(states, steps) && a < k < |states| && steps[a] == DoBegin(i, meta)
    requires forall x :: a < x < k ==> steps[x] != DoFinish
    ensures Underway(states[a], states[k], i, meta)
    decreases k - a
  {
    hide Underway, Next, Enabled;
    if a + 1 == k {
      UnderwayStart(states[a], i, meta);
    } else {
      UpdateUnderway(states, steps, i, meta, a, k - 1);
      UnderwayStep(states[a], states[k - 1], steps[k - 1], i, meta);
    }
  }

  /** When an update of an entry is finished, whatever other threads did meanwhile, the entry has
      the new meta data, and all other entries have what they had when it began. */
  lemma UpdateReplaces(states: seq<State>, steps: seq<Step>, i: nat, meta: HEntry, a: nat, b: nat)
    requires Run(states, steps) && a < b < |steps| && steps[a] == DoBegin(i, meta) && steps[b] == DoFinish
    requires forall x :: a < x < b ==> steps[x] != DoFinish
    ensures i < |states[a].entries| == |states[b + 1].entries|
    ensures states[b + 1].entries[i].meta == meta && states[b + 1].remount == Idle
    ensures SameMeta(states[a], states[b + 1], i)
  {
    UpdateUnderway(states, steps, i, meta, a, b);
    forall j: nat | j < |states[b].entries|
      ensures states[b + 1].entries[j].meta == states[b].entries[j].meta
    {
      OnlyCopy(states[b], steps[b], j);
    }
  }

  /** When all handles are given back every lock is free again, except that of an entry that is
      being updated. */
  lemma {:induction false} AllClosed(s: State, i: nat)
    requires Inv(s) && s.nbOpen == 0 && i < |s.entries|
    ensures s.entries[i].refcount == 0 && (s.entries[i].lock == 1 <==> !Updating(s.remount, i))
  {
    HandlesUpdate(s.entries, i, s.entries[i]);
    assert EntryOk(s, i);
  }

  // ---------------------------------------------------------------- in place

  /** A bucket entry in memory. */
  class Bentry {
    var refcount: nat
    var updatelock: nat
    var update: bool
    var cookie: Option<nat>
    var hentry: HEntry

    ghost function View(): Entry
      reads this
    {
      Entry(refcount, updatelock, update, cookie, hentry)
    }

    constructor (hentry: HEntry)
      ensures View() == Entry(0, 1, false, None, hentry)
    {
      refcount, updatelock, update, cookie, this.hentry := 0, 1, false, None, hentry;
    }

    /** `trydown`. */
    method TryDown() returns (ok: bool)
      modifies this`updatelock
      ensures ok <==> 0 < old(updatelock)
      ensures updatelock == if ok then old(updatelock) - 1 else 0
    {
      ok := 0 < updatelock;
      if ok { updatelock := updatelock - 1; }
    }

    method Up()
      modifies this`updatelock
      ensures updatelock == old(updatelock) + 1
    {
      updatelock := updatelock + 1;
    }
  }

  class Files {
    const entries: seq<Bentry>
    var nbOpen: int
    /** What the thread that remounts is doing. */
    ghost var remount: Remounter

    ghost predicate Valid() {
      forall i, j :: 0 <= i < j < |entries| ==> entries[i] != entries[j]
    }

    ghost function View(): (s: State)
      reads this, entries
      ensures |s.entries| == |entries| && s.nbOpen == nbOpen && s.remount == remount
      ensures forall i {:trigger s.entries[i]} :: 0 <= i < |entries| ==> s.entries[i] == entries[i].View()
    {
      State(seq(|entries|, i requires 0 <= i < |entries| reads this, entries => entries[i].View()), nbOpen, remount)
    }

    constructor (entries: seq<Bentry>)
      requires forall i, j :: 0 <= i < j < |entries| ==> entries[i] != entries[j]
      requires forall i :: 0 <= i < |entries| ==> entries[i].View() == Entry(0, 1, false, None, entries[i].hentry)
      ensures Valid() && this.entries == entries && Initial(View())
    {
      this.entries, nbOpen, remount := entries, 0, Idle;
    }

    /** `_shfs_fio_open_bentry` on entry `i`. */
    method Open(i: nat) returns (errno: int)
      requires Valid() && i < |entries|
      modifies this`nbOpen, entries[i]
      ensures View() == Next(old(View()), DoOpen(i))
      ensures errno == if old(entries[i].update) then EBUSY else 0
    {
      var b := entries[i];
      if b.update { return EBUSY; }
      nbOpen := nbOpen + 1;
      if b.refcount == 0 {
        var locked := b.TryDown();
        b.cookie := None;
      }
      b.refcount := b.refcount + 1;
      errno := 0;
    }

    /** `shfs_fio_openf`. */
    method Clone(i: nat)
      requires Valid() && Enabled(View(), DoClone(i))
      modifies this`nbOpen, entries[i]
      ensures View() == Next(old(View()), DoClone(i))
    {
      entries[i].refcount := entries[i].refcount + 1;
      nbOpen := nbOpen + 1;
    }

    /** `shfs_fio_close`. */
    method Close(i: nat)
      requires Valid() && Enabled(View(), DoClose(i))
      modifies this`nbOpen, entries[i]
      ensures View() == Next(old(View()), DoClose(i))
    {
      var b := entries[i];
      b.refcount := b.refcount - 1;
      if b.refcount == 0 { b.Up(); }
      nbOpen := nbOpen - 1;
    }

    /** `shfs_fio_set_cookie`. */
    method SetCookie(i: nat, cookie: nat) returns (ret: int)
      requires Valid() && Enabled(View(), DoSetCookie(i, cookie))
      modifies entries[i]
      ensures View() == Next(old(View()), DoSetCookie(i, cookie))
      ensures ret == if old(entries[i].cookie.Some?) then -EBUSY else 0
    {
      if entries[i].cookie.Some? { return -EBUSY; }
      entries[i].cookie := Some(cookie);
      ret := 0;
    }

    // The stretches of `reload_vol_htable` between the points where other threads run.

    method Begin(i: nat, nhentry: HEntry)
      requires Valid() && Enabled(View(), DoBegin(i, nhentry))
      modifies this`remount, entries[i]
      ensures View() == Next(old(View()), DoBegin(i, nhentry))
    {
      entries[i].update := true;
      remount := Waiting(i, nhentry);
    }

    /** `down`, at the moment the semaphore lets the thread pass. */
    method Down(i: nat)
      requires Valid() && Enabled(View(), DoDown) && i == remount.i
      modifies this`remount, entries[i]
      ensures View() == Next(old(View()), DoDown)
    {
      entries[i].updatelock := entries[i].updatelock - 1;
      remount := Locked(i, remount.meta);
    }

    method Copy(i: nat, nhentry: HEntry)
      requires Valid() && Enabled(View(), DoCopy) && remount == Locked(i, nhentry)
      modifies this`remount, entries[i]
      ensures View() == Next(old(View()), DoCopy)
    {
      entries[i].hentry := nhentry;
      remount := Copied(i);
    }

    method Finish(i: nat)
      requires Valid() && Enabled(View(), DoFinish) && remount == Copied(i)
      modifies this`remount, entries[i]
      ensures View() == Next(old(View()), DoFinish)
    {
      entries[i].Up();
      entries[i].update := false;
      remount := Idle;
    }
  }
}
