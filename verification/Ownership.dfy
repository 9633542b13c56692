/** The reference-counted heap of core/kk.h and core/kk.cc as a value: objects and slots are
    addresses (0 is null), so that a slot can be seen to dangle.  One thread of control. */
module Ownership {
  type Obj = nat
  type Slot = nat

  datatype Mem = Mem(
    live: set<Obj>,                // allocated and not yet deleted
    count: map<Obj, int>,          // _retainCount
    strong: map<Slot, Obj>,        // what each Strong slot holds
    weak: map<Slot, Obj>,          // what each Weak slot holds
    owner: map<Slot, Obj>,         // the object a slot is a member of; 0 for a variable
    queue: seq<Obj>,               // Atomic::_objects
    table: map<Obj, set<Slot>>,    // Atomic::_weakObjects
    // The rest is bookkeeping for the proof; no operation looks at it.
    pending: multiset<Obj>,        // references counted but not (or no longer) held by a slot
    moving: set<Slot>,             // slots whose old content is being released
    dying: set<Obj>,               // objects whose destructor is running
    condemned: set<Obj>,           // objects queued for deletion
    unborn: set<Obj>,              // objects that have never been retained
    deleted: seq<Obj>)             // the history of deletions

  const EMPTY := Mem({}, map[], map[], map[], map[], [], map[], multiset{}, {}, {}, {}, {}, [])

  /** The member slots of `v`. */
  function Members(m: Mem, v: Obj): set<Slot> {
    set s | s in m.owner && m.owner[s] == v
  }

  /** The Strong slots that hold `o`. */
  function Holders(m: Mem, o: Obj): set<Slot> {
    set s | s in m.strong && s !in m.moving && m.strong[s] == o
  }

  ghost predicate Distinct<T>(s: seq<T>) {
    forall i, j :: 0 <= i < j < |s| ==> s[i] != s[j]
  }

  // ---------------------------------------------------------------- the invariant

  ghost predicate SlotOk(m: Mem, s: Slot)
    requires s in m.owner
  {
    && (m.owner[s] == 0 || m.owner[s] in m.live)
    && (s in m.strong && s !in m.moving ==> m.strong[s] == 0 || m.strong[s] in m.live)
  }

  ghost predicate SlotsOk(m: Mem) {
    && 0 !in m.live
    && m.strong.Keys !! m.weak.Keys
    && m.owner.Keys == m.strong.Keys + m.weak.Keys
    && m.moving <= m.strong.Keys
    && forall s {:trigger SlotOk(m, s)} :: s in m.owner ==> SlotOk(m, s)
  }

  ghost predicate CountOk(m: Mem, o: Obj)
    requires o in m.count
  {
    && m.count[o] == |Holders(m, o)| + m.pending[o]
    && (m.count[o] == 0 <==> o in m.unborn || o in m.dying || o in m.condemned)
  }

  /** Every count is the number of Strong slots plus the pending references, and only objects
      never retained, queued or in destruction have count zero. */
  ghost predicate CountsOk(m: Mem) {
    && m.count.Keys == m.live
    && (forall o {:trigger CountOk(m, o)} :: o in m.live ==> CountOk(m, o))
    && (forall o :: o in m.pending ==> o in m.live)
    && m.unborn !! m.dying !! m.condemned
    && m.unborn <= m.live && m.dying <= m.live && m.condemned <= m.live
  }

  ghost predicate WeakSlotOk(m: Mem, s: Slot)
    requires s in m.weak
  {
    m.weak[s] == 0 || (m.weak[s] in m.table && s in m.table[m.weak[s]])
  }

  ghost predicate EntryOk(m: Mem, o: Obj)
    requires o in m.table
  {
    forall s :: s in m.table[o] ==> s in m.weak && m.weak[s] == o
  }

  /** A Weak slot holds an object exactly when it is registered under that object. */
  ghost predicate WeakOk(m: Mem) {
    && m.table.Keys <= m.live
    && m.dying !! m.table.Keys && m.condemned !! m.table.Keys
    && (forall s {:trigger WeakSlotOk(m, s)} :: s in m.weak ==> WeakSlotOk(m, s))
    && (forall o {:trigger EntryOk(m, o)} :: o in m.table ==> EntryOk(m, o))
  }

  ghost predicate HistoryOk(m: Mem) {
    && Distinct(m.deleted)
    && 0 !in m.deleted
    && (forall o :: o in m.live ==> o !in m.deleted)
  }

  ghost predicate Inv(m: Mem) {
    SlotsOk(m) && CountsOk(m) && WeakOk(m) && HistoryOk(m)
  }

  /** Nothing is in progress: the state between two client operations. */
  ghost predicate Quiet(m: Mem) {
    && Inv(m) && m.queue == []
    && m.pending == multiset{} && m.moving == {} && m.dying == {} && m.condemned == {}
  }

  // ---------------------------------------------------------------- what a release may do

  /** The slots that remain when exactly the objects in `live` do. */
  function OwnedBy(owner: map<Slot, Obj>, live: set<Obj>): map<Slot, Obj> {
    map s | s in owner && (owner[s] == 0 || owner[s] in live) :: owner[s]
  }

  function Kept(slots: map<Slot, Obj>, owner: map<Slot, Obj>): map<Slot, Obj> {
    map s | s in slots && s in owner :: slots[s]
  }

  function KeptWeak(slots: map<Slot, Obj>, owner: map<Slot, Obj>, live: set<Obj>): map<Slot, Obj> {
    map s | s in slots && s in owner :: if slots[s] in live then slots[s] else 0
  }

  /** `n` is `m` with some objects deleted, each with its slots, and the Weak slots that held
      one of them cleared; nothing else about slots has changed. */
  ghost predicate Shrunk(m: Mem, n: Mem) {
    && n.live <= m.live
    && n.owner == OwnedBy(m.owner, n.live)
    && n.strong == Kept(m.strong, n.owner)
    && n.weak == KeptWeak(m.weak, n.owner, n.live)
    && n.moving == m.moving && n.dying == m.dying && n.unborn == m.unborn
    && m.deleted <= n.deleted
    && (forall o :: o in n.deleted <==> o in m.deleted || (o in m.live && o !in n.live))
  }

  /** Every member of `k` is kept by a pending reference, or by a slot of a variable, of a
      never-retained object, of an object in destruction, or of a member of `k`. */
  ghost predicate Supported(m: Mem, k: set<Obj>, anchors: set<Obj>) {
    forall x :: x in k ==> x in m.live && (x in m.pending || HeldFrom(m, x, k + anchors))
  }

  /** The owner of a slot being assigned or destroyed is itself in destruction, or kept. */
  ghost predicate MovingSafe(m: Mem, k: set<Obj>) {
    forall s :: s in m.moving && s in m.owner ==>
      m.owner[s] == 0 || m.owner[s] in m.dying || m.owner[s] in m.unborn || m.owner[s] in k
  }

  ghost predicate NotMoving(m: Mem, v: Obj) {
    forall s :: s in m.moving && s in m.owner ==> m.owner[s] != v
  }

  /** The slot is a variable, or its owner cannot be deleted for another reason. */
  predicate Anchored(m: Mem, s: Slot, from: set<Obj>)
    requires s in m.owner
  {
    m.owner[s] == 0 || m.owner[s] in m.unborn || m.owner[s] in from
  }

  ghost predicate HeldFrom(m: Mem, x: Obj, from: set<Obj>) {
    exists s :: s in Holders(m, x) && s in m.owner && Anchored(m, s, from)
  }

  /** The greatest set that supports itself. */
  ghost function Lasting(m: Mem): set<Obj> {
    set x | x in m.live && Lasts(m, x)
  }

  ghost predicate Lasts(m: Mem, x: Obj) {
    exists k: set<Obj> :: x in k && Supported(m, k, m.dying)
  }

  lemma LastingGreatest(m: Mem, k: set<Obj>)
    requires Supported(m, k, m.dying)
    ensures k <= Lasting(m)
  {
  }

  lemma LastingSupported(m: Mem)
    ensures Supported(m, Lasting(m), m.dying)
  {
    forall x | x in Lasting(m) && x !in m.pending
      ensures HeldFrom(m, x, Lasting(m) + m.dying)
    {
      var k: set<Obj> :| x in k && Supported(m, k, m.dying);
      LastingGreatest(m, k);
      assert HeldFrom(m, x, k + m.dying);
      var s :| s in Holders(m, x) && s in m.owner && Anchored(m, s, k + m.dying);
      assert Anchored(m, s, Lasting(m) + m.dying);
    }
  }

  lemma {:induction false} ShrunkTransitive(a: Mem, b: Mem, c: Mem)
    requires Shrunk(a, b) && Shrunk(b, c) && 0 !in a.live
    ensures Shrunk(a, c)
  {
  }

  // ---------------------------------------------------------------- steps

  function Retained(m: Mem, o: Obj): Mem
    requires o in m.count
  {
    m.(count := m.count[o := m.count[o] + 1], pending := m.pending + multiset{o}, unborn := m.unborn - {o})
  }

  /** One pending reference given up; the count may have fallen to zero. */
  function Dropped(m: Mem, o: Obj): Mem
    requires o in m.count
  {
    m.(count := m.count[o := m.count[o] - 1], pending := m.pending - multiset{o})
  }

  function Cleared(weak: map<Slot, Obj>, slots: set<Slot>): map<Slot, Obj> {
    map s | s in weak :: if s in slots then 0 else weak[s]
  }

  /** `o` queued for deletion, with the Weak slots registered under it cleared. */
  function Queued(m: Mem, o: Obj): Mem {
    var registered := if o in m.table then m.table[o] else {};
    m.(queue := m.queue + [o],
       weak := Cleared(m.weak, registered),
       table := m.table - {o},
       condemned := m.condemned + {o})
  }

  /** The content of `s` on its way out: the slot still shows it, but no longer counts. */
  function Moving(m: Mem, s: Slot): Mem
    requires s in m.strong
  {
    m.(moving := m.moving + {s}, pending := m.pending + multiset{m.strong[s]})
  }

  function WithoutSlot(m: Mem, s: Slot): Mem {
    m.(owner := m.owner - {s}, strong := m.strong - {s}, weak := m.weak - {s}, moving := m.moving - {s})
  }

  /** A moving slot given its new content, for which a reference is pending. */
  function Settled(m: Mem, s: Slot, o: Obj): Mem {
    m.(strong := m.strong[s := o], moving := m.moving - {s},
       pending := if o == 0 then m.pending else m.pending - multiset{o})
  }

  /** What `SlotsOk` and `WeakOk` look at is the same in `m` and `n`. */
  ghost predicate SameSlots(m: Mem, n: Mem) {
    && n.live == m.live && n.strong == m.strong && n.weak == m.weak && n.owner == m.owner && n.table == m.table
    && n.dying == m.dying && n.condemned == m.condemned
  }

  lemma {:induction false} SameSlotsOk(m: Mem, n: Mem)
    requires SlotsOk(m) && WeakOk(m) && SameSlots(m, n) && m.moving <= n.moving <= n.strong.Keys
    ensures SlotsOk(n) && WeakOk(n)
  {
    forall s | s in n.owner
      ensures SlotOk(n, s)
    {
      assert SlotOk(m, s);
    }
    SameWeakOk(m, n);
  }

  lemma {:induction false} SameWeakOk(m: Mem, n: Mem)
    requires WeakOk(m) && n.weak == m.weak && n.table == m.table && m.live <= n.live
    requires n.dying + n.condemned <= m.dying + m.condemned
    ensures WeakOk(n)
  {
    forall s | s in n.weak
      ensures WeakSlotOk(n, s)
    {
      assert WeakSlotOk(m, s);
    }
    forall o | o in n.table
      ensures EntryOk(n, o)
    {
      assert EntryOk(m, o);
    }
  }

  lemma {:induction false} RetainedInv(m: Mem, o: Obj)
    requires Inv(m) && o in m.live && o !in m.dying && o !in m.condemned
    ensures Inv(Retained(m, o))
  {
    var n := Retained(m, o);
    SameSlotsOk(m, n);
    forall x | x in n.live
      ensures CountOk(n, x)
    {
      assert CountOk(m, x);
      assert Holders(n, x) == Holders(m, x);
    }
  }

  lemma {:induction false} DroppedInv(m: Mem, o: Obj)
    requires Inv(m) && o in m.pending && m.count[o] > 1
    ensures Inv(Dropped(m, o))
  {
    var n := Dropped(m, o);
    SameSlotsOk(m, n);
    forall x | x in n.live
      ensures CountOk(n, x)
    {
      assert CountOk(m, x);
      assert Holders(n, x) == Holders(m, x);
    }
  }

  lemma {:induction false} QueuedWeak(m: Mem, o: Obj)
    requires WeakOk(m) && o in m.live && o != 0
    ensures WeakOk(Queued(m, o))
  {
    var n := Queued(m, o);
    forall s | s in n.weak
      ensures WeakSlotOk(n, s)
    {
      assert WeakSlotOk(m, s);
    }
    forall x | x in n.table
      ensures EntryOk(n, x)
    {
      assert EntryOk(m, x);
      if o in m.table { assert EntryOk(m, o); }
    }
  }

  lemma {:induction false} QueuedCounts(m: Mem, o: Obj)
    requires CountsOk(m) && o in m.pending && m.count[o] == 1
    ensures CountsOk(Queued(Dropped(m, o), o))
  {
    var n := Queued(Dropped(m, o), o);
    assert CountOk(m, o);
    forall x | x in n.live
      ensures CountOk(n, x)
    {
      assert CountOk(m, x);
      assert Holders(n, x) == Holders(m, x);
    }
  }

  lemma {:induction false} QueuedInv(m: Mem, o: Obj)
    requires Inv(m) && o in m.pending && m.count[o] == 1
    ensures Inv(Queued(Dropped(m, o), o))
  {
    QueuedCounts(m, o);
    SameSlotsOk(m, Dropped(m, o));
    QueuedWeak(Dropped(m, o), o);
    var n := Queued(Dropped(m, o), o);
    assert n.weak.Keys == m.weak.Keys;
    forall s | s in n.owner
      ensures SlotOk(n, s)
    {
      assert SlotOk(m, s);
    }
  }

  lemma {:induction false} MovingInv(m: Mem, s: Slot)
    requires Inv(m) && s in m.strong && s !in m.moving && m.strong[s] != 0
    ensures Inv(Moving(m, s))
  {
    var n, o := Moving(m, s), m.strong[s];
    assert SlotOk(m, s);
    SameSlotsOk(m, n);
    forall x | x in n.live
      ensures CountOk(n, x)
    {
      assert CountOk(m, x);
      assert s in Holders(m, o);
      assert Holders(n, x) == Holders(m, x) - if x == o then {s} else {};
    }
  }

  lemma {:induction false} WithoutSlotCounts(m: Mem, s: Slot)
    requires CountsOk(m) && (s in m.strong ==> s in m.moving || m.strong[s] == 0) && 0 !in m.live
    ensures CountsOk(WithoutSlot(m, s))
  {
    var n := WithoutSlot(m, s);
    forall x | x in n.live
      ensures CountOk(n, x)
    {
      assert CountOk(m, x);
      assert Holders(n, x) == Holders(m, x);
    }
  }

  /** A slot that holds nothing, or whose content has been released, may go away. */
  lemma {:induction false} WithoutSlotInv(m: Mem, s: Slot)
    requires Inv(m) && s in m.owner
    requires if s in m.strong then s in m.moving || m.strong[s] == 0 else m.weak[s] == 0
    ensures Inv(WithoutSlot(m, s))
  {
    WithoutSlotCounts(m, s);
    var n := WithoutSlot(m, s);
    forall t | t in n.owner
      ensures SlotOk(n, t)
    {
      assert SlotOk(m, t);
    }
    forall t | t in n.weak
      ensures WeakSlotOk(n, t)
    {
      assert WeakSlotOk(m, t);
    }
    forall o | o in n.table
      ensures EntryOk(n, o)
    {
      assert EntryOk(m, o);
    }
  }

  lemma {:induction false} SettledInv(m: Mem, s: Slot, o: Obj)
    requires Inv(m) && s in m.strong && (s in m.moving || m.strong[s] == 0) && (o == 0 || o in m.pending)
    ensures Inv(Settled(m, s, o))
  {
    var n := Settled(m, s, o);
    SettledCounts(m, s, o);
    forall t | t in n.owner
      ensures SlotOk(n, t)
    {
      assert SlotOk(m, t);
    }
    SameWeakOk(m, n);
  }

  lemma {:induction false} SettledCounts(m: Mem, s: Slot, o: Obj)
    requires CountsOk(m) && s in m.strong && 0 !in m.live
    requires (s in m.moving || m.strong[s] == 0) && (o == 0 || o in m.pending)
    ensures CountsOk(Settled(m, s, o))
  {
    hide Holders;
    var n := Settled(m, s, o);
    forall x | x in n.live
      ensures CountOk(n, x)
    {
      assert CountOk(m, x);
      SettledHolders(m, s, o, x);
    }
  }

  lemma SettledHolders(m: Mem, s: Slot, o: Obj, x: Obj)
    requires s in m.strong && (s in m.moving || m.strong[s] == 0) && x != 0
    ensures s !in Holders(m, x)
    ensures Holders(Settled(m, s, o), x) == Holders(m, x) + if x == o then {s} else {}
  {
  }

  // ---------------------------------------------------------------- the relation over steps

  /** Nothing deleted. */
  lemma {:induction false} ShrunkSelf(m: Mem, n: Mem)
    requires SlotsOk(m) && WeakOk(m)
    requires n.live == m.live && n.owner == m.owner && n.strong == m.strong && n.weak == m.weak
    requires n.moving == m.moving && n.dying == m.dying && n.unborn == m.unborn && n.deleted == m.deleted
    requires forall o :: o in m.live ==> o !in m.deleted
    ensures Shrunk(m, n)
  {
    forall s | s in m.owner
      ensures m.owner[s] == 0 || m.owner[s] in n.live
    {
      assert SlotOk(m, s);
    }
    forall s | s in m.weak
      ensures m.weak[s] == 0 || m.weak[s] in n.live
    {
      assert WeakSlotOk(m, s);
    }
  }

  /** Clearing the Weak slots early comes to the same, once the object is gone. */
  lemma {:induction false} ShrunkQueued(m: Mem, o: Obj, n: Mem)
    requires Inv(m) && o in m.live && Shrunk(Queued(Dropped(m, o), o), n) && o !in n.live
    ensures Shrunk(m, n)
  {
    var q := Queued(Dropped(m, o), o);
    forall s | s in m.weak && s in n.owner
      ensures n.weak[s] == if m.weak[s] in n.live then m.weak[s] else 0
    {
      if o in m.table { assert EntryOk(m, o); }
    }
    assert n.weak == KeptWeak(m.weak, n.owner, n.live);
  }

  lemma {:induction false} SupportedShrunk(m: Mem, n: Mem, k: set<Obj>, anchors: set<Obj>)
    requires Shrunk(m, n) && n.pending == m.pending && Supported(m, k, anchors)
    requires k <= n.live && anchors <= n.live && n.unborn <= n.live
    ensures Supported(n, k, anchors)
  {
    forall x | x in k && x !in n.pending
      ensures HeldFrom(n, x, k + anchors)
    {
      assert HeldFrom(m, x, k + anchors);
      var s :| s in Holders(m, x) && s in m.owner && Anchored(m, s, k + anchors);
      assert s in n.owner;
      assert s in Holders(n, x);
    }
  }

  /** Support that does not run through slot `s` survives the release of its content. */
  lemma {:induction false} SupportedMoving(m: Mem, s: Slot, k: set<Obj>, anchors: set<Obj>, more: set<Obj>)
    requires s in m.strong && m.strong[s] in m.count && Supported(m, k, anchors) && s in m.owner
    requires !Anchored(m, s, k + anchors) && anchors <= more
    ensures Supported(Dropped(Moving(m, s), m.strong[s]), k, more)
  {
    var n := Dropped(Moving(m, s), m.strong[s]);
    assert n.pending == m.pending;
    forall x | x in k && x !in n.pending
      ensures HeldFrom(n, x, k + more)
    {
      assert HeldFrom(m, x, k + anchors);
      var t :| t in Holders(m, x) && t in m.owner && Anchored(m, t, k + anchors);
      assert t in Holders(n, x);
    }
  }

  /** A supported object has a positive count, so it is neither queued nor in destruction. */
  lemma {:induction false} SupportedAlive(m: Mem, k: set<Obj>, anchors: set<Obj>)
    requires CountsOk(m) && Supported(m, k, anchors)
    ensures k <= m.live && k !! m.dying + m.condemned
  {
    forall x | x in k
      ensures x in m.live && x !in m.dying && x !in m.condemned
    {
      assert CountOk(m, x);
      if x !in m.pending {
        assert HeldFrom(m, x, k + anchors);
        assert Holders(m, x) != {};
      }
    }
  }

  function OwnedByOthers(owner: map<Slot, Obj>, v: Obj): map<Slot, Obj> {
    map s | s in owner && owner[s] != v :: owner[s]
  }

  /** `m` without the slots of `v`. */
  function Stripped(m: Mem, v: Obj): Mem {
    var owner := OwnedByOthers(m.owner, v);
    m.(owner := owner, strong := Kept(m.strong, owner), weak := Kept(m.weak, owner))
  }

  lemma {:induction false} StrippedShrunk(m: Mem, n: Mem, v: Obj)
    requires Shrunk(m, n) && v != 0
    ensures Shrunk(Stripped(m, v), Stripped(n, v))
  {
    hide OwnedBy, OwnedByOthers, Kept, KeptWeak;
    var a, b := Stripped(m, v), Stripped(n, v);
    OthersLeft(m.owner, n.live, v);
    KeptTwice(m.strong, a.owner, b.owner);
    KeptTwice(m.strong, n.owner, b.owner);
    KeptWeakTwice(m.weak, a.owner, b.owner, n.live);
    KeptWeakTwice(m.weak, n.owner, b.owner, n.live);
  }

  lemma OthersLeft(owner: map<Slot, Obj>, live: set<Obj>, v: Obj)
    requires v != 0
    ensures
      var a, b := OwnedByOthers(owner, v), OwnedBy(owner, live);
      && OwnedByOthers(b, v) == OwnedBy(a, live)
      && OwnedBy(a, live).Keys <= a.Keys && OwnedBy(a, live).Keys <= b.Keys
  {
  }

  lemma KeptTwice(slots: map<Slot, Obj>, owner: map<Slot, Obj>, less: map<Slot, Obj>)
    requires less.Keys <= owner.Keys
    ensures Kept(Kept(slots, owner), less) == Kept(slots, less)
  {
  }

  lemma KeptWeakTwice(slots: map<Slot, Obj>, owner: map<Slot, Obj>, less: map<Slot, Obj>, live: set<Obj>)
    requires less.Keys <= owner.Keys
    ensures KeptWeak(Kept(slots, owner), less, live) == KeptWeak(slots, less, live)
    ensures Kept(KeptWeak(slots, owner, live), less) == KeptWeak(slots, less, live)
  {
  }

  /** The end of a destructor: `v` has no slots left. */
  function Buried(m: Mem, v: Obj): Mem {
    m.(live := m.live - {v}, count := m.count - {v}, dying := m.dying - {v}, deleted := m.deleted + [v])
  }

  lemma {:induction false} BuriedInv(m: Mem, v: Obj)
    requires Inv(m) && v in m.dying && Members(m, v) == {}
    ensures Inv(Buried(m, v))
  {
    var n := Buried(m, v);
    assert CountOk(m, v);
    assert Holders(m, v) == {};
    forall s | s in n.owner
      ensures SlotOk(n, s)
    {
      assert SlotOk(m, s);
      assert s !in Members(m, v) && s !in Holders(m, v);
    }
    BuriedCounts(m, v);
    BuriedWeak(m, v);
  }

  lemma {:induction false} BuriedCounts(m: Mem, v: Obj)
    requires CountsOk(m) && v in m.dying && v !in m.pending
    ensures CountsOk(Buried(m, v))
  {
    var n := Buried(m, v);
    forall x | x in n.live
      ensures CountOk(n, x)
    {
      assert CountOk(m, x);
      assert Holders(n, x) == Holders(m, x);
    }
  }

  lemma {:induction false} BuriedWeak(m: Mem, v: Obj)
    requires WeakOk(m) && v in m.dying
    ensures WeakOk(Buried(m, v))
  {
    var n := Buried(m, v);
    forall s | s in n.weak
      ensures WeakSlotOk(n, s)
    {
      assert WeakSlotOk(m, s);
    }
    forall o | o in n.table
      ensures EntryOk(n, o)
    {
      assert EntryOk(m, o);
    }
  }

  lemma {:induction false} StrippedSame(n: Mem, v: Obj)
    requires SlotsOk(n) && Members(n, v) == {}
    ensures Stripped(n, v) == n
  {
    forall s | s in n.owner
      ensures n.owner[s] != v
    {
      assert s !in Members(n, v);
    }
    var t := Stripped(n, v);
    assert t.owner == n.owner;
    assert n.strong.Keys <= n.owner.Keys && n.weak.Keys <= n.owner.Keys;
    assert t.strong == n.strong && t.weak == n.weak;
  }

  /** Seen from before the destructor of `v` began, all that has happened is deletion. */
  lemma {:induction false} ShrunkBuried(m: Mem, n: Mem, v: Obj)
    requires Inv(m) && v in m.condemned && v in n.live && v !in m.dying && v !in m.table
    requires Shrunk(Stripped(m.(dying := m.dying + {v}), v), n)
    ensures Shrunk(m, Buried(n, v))
  {
    BuriedOwner(m, n, v);
    BuriedStrong(m, n, v);
    BuriedWeakSlots(m, n, v);
    assert v !in m.deleted;
    assert forall o :: o in n.deleted + [v] <==> o in n.deleted || o == v;
  }

  lemma {:induction false} BuriedOwner(m: Mem, n: Mem, v: Obj)
    requires v != 0
    requires n.owner == OwnedBy(OwnedByOthers(m.owner, v), n.live)
    ensures n.owner == OwnedBy(m.owner, n.live - {v})
    ensures forall s :: s in n.owner ==> s in m.owner && m.owner[s] != v
  {
  }

  lemma {:induction false} BuriedStrong(m: Mem, n: Mem, v: Obj)
    requires SlotsOk(m) && (forall s :: s in n.owner ==> s in m.owner && m.owner[s] != v)
    requires n.strong == Kept(Kept(m.strong, OwnedByOthers(m.owner, v)), n.owner)
    ensures n.strong == Kept(m.strong, n.owner)
  {
  }

  lemma {:induction false} BuriedWeakSlots(m: Mem, n: Mem, v: Obj)
    requires SlotsOk(m) && WeakOk(m) && v !in m.table && v != 0
    requires forall s :: s in n.owner ==> s in m.owner && m.owner[s] != v
    requires n.weak == KeptWeak(Kept(m.weak, OwnedByOthers(m.owner, v)), n.owner, n.live)
    ensures n.weak == KeptWeak(m.weak, n.owner, n.live - {v})
  {
    forall s | s in m.weak
      ensures m.weak[s] != v
    {
      assert WeakSlotOk(m, s);
    }
  }

  /** A slot's content given up, whatever it was. */
  function Released(m: Mem, s: Slot): Mem
    requires s in m.strong
  {
    if m.strong[s] !in m.count then m else Dropped(Moving(m, s), m.strong[s])
  }

  lemma {:induction false} WithoutSlotShrunk(m: Mem, n: Mem, s: Slot)
    requires Shrunk(m, n)
    ensures Shrunk(WithoutSlot(m, s), WithoutSlot(n, s))
  {
  }

  /** Taking a slot of `v` away changes nothing for those who never looked at it. */
  lemma {:induction false} SupportedWithout(m: Mem, s: Slot, k: set<Obj>, anchors: set<Obj>)
    requires Supported(m, k, anchors) && s in m.owner && !Anchored(m, s, k + anchors)
    ensures Supported(WithoutSlot(m, s), k, anchors)
  {
    var n := WithoutSlot(m, s);
    forall x | x in k && x !in n.pending
      ensures HeldFrom(n, x, k + anchors)
    {
      assert HeldFrom(m, x, k + anchors);
      var t :| t in Holders(m, x) && t in m.owner && Anchored(m, t, k + anchors);
      assert t in Holders(n, x);
    }
  }

  lemma {:induction false} StrippedWithout(m: Mem, s: Slot, v: Obj)
    requires s in m.owner && m.owner[s] == v && s !in m.moving
    ensures Stripped(WithoutSlot(m, s), v) == Stripped(m, v)
  {
  }

  /** One more slot of `v` destroyed. */
  lemma {:induction false} DestructorStep(m: Mem, n: Mem, n': Mem, s: Slot, v: Obj)
    requires Shrunk(Stripped(m, v), Stripped(n, v)) && 0 !in m.live && v != 0
    requires s in n.owner && n.owner[s] == v && s !in n.moving && Shrunk(WithoutSlot(n, s), n')
    ensures Shrunk(Stripped(m, v), Stripped(n', v))
  {
    StrippedWithout(n, s, v);
    StrippedShrunk(WithoutSlot(n, s), n', v);
    ShrunkTransitive(Stripped(m, v), Stripped(n, v), Stripped(n', v));
  }

  lemma {:induction false} DyingInv(m: Mem, v: Obj)
    requires Inv(m) && m.condemned == {v}
    ensures Inv(m.(condemned := {}, dying := m.dying + {v}))
  {
    var n := m.(condemned := {}, dying := m.dying + {v});
    forall s | s in n.owner
      ensures SlotOk(n, s)
    {
      assert SlotOk(m, s);
    }
    forall x | x in n.live
      ensures CountOk(n, x)
    {
      assert CountOk(m, x);
      assert Holders(n, x) == Holders(m, x);
    }
    SameWeakOk(m, n);
  }

  /** A Weak slot taken off the table of the object it holds. */
  function Unregistered(m: Mem, s: Slot): Mem
    requires s in m.weak
  {
    var o := m.weak[s];
    m.(weak := m.weak[s := 0], table := if o in m.table then m.table[o := m.table[o] - {s}] else m.table)
  }

  lemma {:induction false} UnregisteredInv(m: Mem, s: Slot)
    requires Inv(m) && s in m.weak
    ensures Inv(Unregistered(m, s))
  {
    var n := Unregistered(m, s);
    forall t | t in n.owner
      ensures SlotOk(n, t)
    {
      assert SlotOk(m, t);
    }
    SameCounts(m, n);
    forall t | t in n.weak
      ensures WeakSlotOk(n, t)
    {
      assert WeakSlotOk(m, t);
    }
    forall o | o in n.table
      ensures EntryOk(n, o)
    {
      assert EntryOk(m, o);
    }
  }

  /** A Weak slot entered on the table of the object it is to hold. */
  function Registered(m: Mem, s: Slot, o: Obj): Mem {
    var registered := if o in m.table then m.table[o] else {};
    m.(weak := m.weak[s := o], table := m.table[o := registered + {s}])
  }

  lemma {:induction false} RegisteredInv(m: Mem, s: Slot, o: Obj)
    requires Inv(m) && s in m.weak && m.weak[s] == 0 && o in m.live && o !in m.dying && o !in m.condemned
    ensures Inv(Registered(m, s, o))
  {
    var n := Registered(m, s, o);
    forall t | t in n.owner
      ensures SlotOk(n, t)
    {
      assert SlotOk(m, t);
    }
    SameCounts(m, n);
    forall t | t in n.weak
      ensures WeakSlotOk(n, t)
    {
      assert WeakSlotOk(m, t);
    }
    forall x | x in n.table
      ensures EntryOk(n, x)
    {
      if x in m.table { assert EntryOk(m, x); }
    }
  }

  lemma {:induction false} SameCounts(m: Mem, n: Mem)
    requires CountsOk(m) && n.live == m.live && n.count == m.count && n.pending == m.pending
    requires n.strong == m.strong && n.moving == m.moving
    requires n.unborn == m.unborn && n.dying == m.dying && n.condemned == m.condemned
    ensures CountsOk(n)
  {
    forall x | x in n.live
      ensures CountOk(n, x)
    {
      assert CountOk(m, x);
      assert Holders(n, x) == Holders(m, x);
    }
  }

  lemma {:induction false} PoppedInv(m: Mem)
    requires Inv(m)
    ensures Inv(m.(queue := []))
  {
    var n := m.(queue := []);
    SameSlotsOk(m, n);
    forall x | x in n.live
      ensures CountOk(n, x)
    {
      assert CountOk(m, x);
      assert Holders(n, x) == Holders(m, x);
    }
  }

  lemma {:induction false} ShrunkReflexive(m: Mem)
    requires Inv(m)
    ensures Shrunk(m, m)
  {
    ShrunkSelf(m, m);
  }

  lemma {:induction false} StrippedReflexive(m: Mem, v: Obj)
    requires Inv(m) && v != 0
    ensures Shrunk(Stripped(m, v), Stripped(m, v))
  {
    ShrunkReflexive(m);
    StrippedShrunk(m, m, v);
  }

  lemma {:induction false} MovingShrunk(m: Mem, n: Mem, s: Slot)
    requires s in m.strong && s !in m.moving && Shrunk(Moving(m, s), n)
    ensures Shrunk(WithoutSlot(m, s), WithoutSlot(n, s))
  {
    WithoutSlotShrunk(Moving(m, s), n, s);
    assert WithoutSlot(Moving(m, s), s).moving == WithoutSlot(m, s).moving;
  }

  lemma {:induction false} UnregisteredShrunk(m: Mem, s: Slot)
    requires Inv(m) && s in m.weak
    ensures Shrunk(WithoutSlot(m, s), WithoutSlot(Unregistered(m, s), s))
  {
    ShrunkReflexive(m);
    WithoutSlotShrunk(m, m, s);
    assert WithoutSlot(Unregistered(m, s), s).weak == WithoutSlot(m, s).weak;
  }

  lemma {:induction false} SupportedQueued(m: Mem, o: Obj, k: set<Obj>)
    requires Supported(m, k, m.dying)
    ensures Supported(Queued(m, o), k, m.dying)
    ensures MovingSafe(m, k) ==> MovingSafe(Queued(m, o), k)
  {
    var n := Queued(m, o);
    forall x | x in k && x !in n.pending
      ensures HeldFrom(n, x, k + m.dying)
    {
      assert HeldFrom(m, x, k + m.dying);
      assert Holders(n, x) == Holders(m, x);
    }
  }

  lemma {:induction false} ReleasedSupport(m: Mem, s: Slot, k: set<Obj>, anchors: set<Obj>)
    requires Inv(m) && s in m.strong && s !in m.moving && Supported(m, k, anchors) && anchors <= m.dying
    requires !Anchored(m, s, k + anchors)
    ensures Supported(Released(m, s), k, m.dying)
  {
    assert SlotOk(m, s);
    if m.strong[s] != 0 {
      SupportedMoving(m, s, k, anchors, m.dying);
    } else {
      forall x | x in k && x !in m.pending
        ensures HeldFrom(m, x, k + m.dying)
      {
        assert HeldFrom(m, x, k + anchors);
      }
    }
  }

  lemma {:induction false} MembersLeft(n: Mem, n': Mem, s: Slot, v: Obj)
    requires Shrunk(WithoutSlot(n, s), n') && v in n'.live
    ensures Members(n', v) == Members(n, v) - {s}
  {
  }

  lemma WithoutStrong(m: Mem, s: Slot)
    requires SlotsOk(m) && s in m.strong
    ensures WithoutSlot(m, s) == m.(strong := m.strong - {s}, owner := m.owner - {s}, moving := m.moving - {s})
  {
    assert m.weak - {s} == m.weak;
  }

  /** The destructor of `v` has begun at `m` and got as far as `n`. */
  ghost predicate Destructing(m: Mem, n: Mem, v: Obj, k: set<Obj>, anchors: set<Obj>) {
    && Inv(n) && n.queue == [] && n.condemned == {} && n.pending == m.pending
    && n.dying == m.dying && n.live <= m.live
    && Supported(n, k, anchors) && MovingSafe(n, k) && k <= n.live && NotMoving(n, v)
    && Shrunk(Stripped(m, v), Stripped(n, v))
  }

  lemma NotMovingKept(m: Mem, n: Mem, v: Obj)
    requires NotMoving(m, v) && Shrunk(m, n)
    ensures NotMoving(n, v)
  {
  }

  // ---------------------------------------------------------------- between operations

  /** What an assignment changes apart from what it deletes. */
  function Assigned(m: Mem, s: Slot, o: Obj): Mem {
    m.(strong := m.strong[s := o], unborn := m.unborn - {o})
  }

  function RetainedIf(m: Mem, o: Obj): Mem
    requires o != 0 ==> o in m.count
  {
    if o == 0 then m else Retained(m, o)
  }

  /** The memory while the old content of `s` is released: the new one is retained and the slot no longer counts. */
  function Releasing(m: Mem, s: Slot, o: Obj): Mem
    requires s in m.strong && (o != 0 ==> o in m.count)
  {
    Released(RetainedIf(m, o), s)
  }

  /** The slot can be assigned: its owner is not deleted by the release of its old content. */
  ghost predicate OwnerLasts(m: Mem, s: Slot, o: Obj)
    requires s in m.strong && s in m.owner && (o != 0 ==> o in m.count)
  {
    var r := Releasing(m, s, o);
    Anchored(r, s, Lasting(r))
  }

  /** What the release in an assignment asks for. */
  lemma AssignSupport(m: Mem, s: Slot, o: Obj)
    requires Quiet(m) && s in m.strong && s in m.owner && (o == 0 || o in m.live) && OwnerLasts(m, s, o)
    ensures
      var r, k := RetainedIf(m, o), Lasting(Releasing(m, s, o));
      && Inv(r) && r.queue == [] && r.condemned == {} && s !in r.moving
      && Supported(Released(r, s), k, r.dying) && MovingSafe(r, k) && Anchored(r, s, k + r.dying)
  {
    assert o != 0 ==> o in m.count;
    if o != 0 {
      RetainedInv(m, o);
    }
    hide Inv, Supported, Lasting;
    LastingSupported(Releasing(m, s, o));
  }

  /** The memory that the release in an assignment leaves. */
  ghost predicate Displaced(m: Mem, s: Slot, o: Obj, n: Mem)
    requires s in m.strong && (o != 0 ==> o in m.count)
  {
    var r := RetainedIf(m, o);
    && Shrunk(if r.strong[s] != 0 then Moving(r, s) else r, n) && n.pending == r.pending
    && Inv(n) && n.queue == [] && n.condemned == {}
    && n.live == Lasting(Releasing(m, s, o)) + n.dying + n.unborn
  }

  lemma OwnerStays(m: Mem, s: Slot, o: Obj, n: Mem)
    requires Quiet(m) && s in m.strong && s in m.owner && (o == 0 || o in m.live) && OwnerLasts(m, s, o)
    requires o != 0 ==> o in m.count
    requires Displaced(m, s, o, n)
    ensures n.dying == {} && n.owner == OwnedBy(m.owner, n.live) && s in n.owner && s in n.strong
    ensures o != 0 ==> o in n.pending && o in n.live
  {
    hide Lasting, Supported, WeakOk, HistoryOk;
  }

  /** Now the slot gets the new content. */
  lemma AssignDone(m: Mem, s: Slot, o: Obj, n: Mem)
    requires Quiet(m) && s in m.strong && s in m.owner && (o == 0 || o in m.live) && OwnerLasts(m, s, o)
    requires o != 0 ==> o in m.count
    requires Displaced(m, s, o, n)
    ensures Quiet(Settled(n, s, o)) && s in n.strong && Shrunk(Assigned(m, s, o), Settled(n, s, o))
    ensures n.live == Lasting(Releasing(m, s, o)) + n.unborn && (o != 0 ==> o in n.live)
  {
    hide Lasting, Supported, Inv, OwnerLasts;
    OwnerStays(m, s, o, n);
    SettledInv(n, s, o);
    SetShrunk(m, n, s, o);
  }

  lemma {:induction false} SetShrunk(m: Mem, n: Mem, s: Slot, o: Obj)
    requires Quiet(m) && s in m.strong && (o == 0 || o in m.live)
    requires Shrunk(Moving(RetainedIf(m, o), s), n) || Shrunk(RetainedIf(m, o), n)
    requires s in n.strong
    ensures Shrunk(Assigned(m, s, o), Settled(n, s, o))
  {
    assert s in n.owner;
    KeptUpdate(m.strong, n.owner, s, o);
    assert o == 0 ==> m.unborn - {o} == m.unborn;
    var a, b := Assigned(m, s, o), Settled(n, s, o);
    assert b.owner == OwnedBy(a.owner, b.live);
    assert b.weak == KeptWeak(a.weak, b.owner, b.live);
    assert b.moving == a.moving;
  }

  lemma KeptUpdate(slots: map<Slot, Obj>, owner: map<Slot, Obj>, s: Slot, o: Obj)
    requires s in owner
    ensures Kept(slots, owner)[s := o] == Kept(slots[s := o], owner)
  {
  }

  /** With nothing queued, whatever has ever been retained is held. */
  lemma SettledSupported(m: Mem)
    requires Inv(m) && m.condemned == {}
    ensures Supported(m, m.live - m.unborn - m.dying, m.dying)
  {
    var k := m.live - m.unborn - m.dying;
    forall x | x in k && x !in m.pending
      ensures HeldFrom(m, x, k + m.dying)
    {
      assert CountOk(m, x);
      assert Holders(m, x) != {};
      var s :| s in Holders(m, x);
      assert SlotOk(m, s);
      assert Anchored(m, s, k + m.dying);
    }
  }

  /** Support never grows when objects are deleted. */
  lemma ShrunkSupport(m: Mem, n: Mem, k: set<Obj>)
    requires Shrunk(m, n) && n.pending == m.pending && Supported(n, k, n.dying)
    ensures Supported(m, k, m.dying)
  {
    forall x | x in k && x !in m.pending
      ensures HeldFrom(m, x, k + m.dying)
    {
      assert HeldFrom(n, x, k + n.dying);
      var s :| s in Holders(n, x) && s in n.owner && Anchored(n, s, k + n.dying);
      assert s in Holders(m, x) && Anchored(m, s, k + m.dying);
    }
  }

  /**
   * Who survives: if none of the greatest self-supporting set is deleted, then exactly that set, the objects in
   * destruction and those never retained are left.
   */
  lemma Survivors(m: Mem, n: Mem)
    requires Shrunk(m, n) && n.pending == m.pending && Inv(n) && n.condemned == {} && Lasting(m) <= n.live
    ensures n.live == Lasting(m) + m.dying + m.unborn
  {
    SettledSupported(n);
    ShrunkSupport(m, n, n.live - n.unborn - n.dying);
    LastingGreatest(m, n.live - n.unborn - n.dying);
  }

  /** A quiet heap: counts are exactly the Strong slots, no slot dangles, and the objects
      alive are those that support themselves and those never retained. */
  lemma {:induction false} QuietFacts(m: Mem)
    requires Quiet(m)
    ensures forall o :: o in m.live ==> m.count[o] == |Holders(m, o)|
    ensures forall s :: s in m.strong ==> m.strong[s] == 0 || m.strong[s] in m.live
    ensures forall s, o :: s in m.weak && o in m.live ==>
      (m.weak[s] == o <==> o in m.table && s in m.table[o])
    ensures forall s :: s in m.weak ==> m.weak[s] == 0 || m.weak[s] in m.live
    ensures forall o :: o in m.deleted ==> o !in m.live
    ensures m.live == Lasting(m) + m.unborn
  {
    SettledSupported(m);
    LastingGreatest(m, m.live - m.unborn - m.dying);
    forall o | o in m.live
      ensures m.count[o] == |Holders(m, o)|
    {
      assert CountOk(m, o);
    }
    forall s | s in m.strong
      ensures m.strong[s] == 0 || m.strong[s] in m.live
    {
      assert SlotOk(m, s);
    }
    forall s | s in m.weak
      ensures m.weak[s] == 0 || m.weak[s] in m.live
      ensures forall o :: o in m.live ==> (m.weak[s] == o <==> o in m.table && s in m.table[o])
    {
      assert WeakSlotOk(m, s);
      forall o | o in m.live
        ensures m.weak[s] == o <==> o in m.table && s in m.table[o]
      {
        if o in m.table { assert EntryOk(m, o); }
      }
    }
  }

  // ---------------------------------------------------------------- reachability

  /** A chain of Strong slots from a variable, each a member of the object the previous holds. */
  predicate Chain(m: Mem, p: seq<Slot>) {
    && (forall i :: 0 <= i < |p| ==> p[i] in m.strong && p[i] in m.owner && m.strong[p[i]] in m.live)
    && (p != [] ==> m.owner[p[0]] == 0)
    && (forall i :: 0 < i < |p| ==> m.owner[p[i]] == m.strong[p[i - 1]])
  }

  ghost function Along(m: Mem, p: seq<Slot>): set<Obj>
    requires Chain(m, p)
  {
    set i | 0 <= i < |p| :: m.strong[p[i]]
  }

  lemma LinkHolds(m: Mem, p: seq<Slot>, s: Slot, o: Obj, i: nat)
    requires Quiet(m) && s in m.strong && (o != 0 ==> o in m.count) && Chain(m, p) && s !in p && i < |p|
    ensures
      var n := Releasing(m, s, o);
      p[i] in Holders(n, m.strong[p[i]]) && p[i] in n.owner && Anchored(n, p[i], Along(m, p))
  {
    hide Inv;
    if i > 0 {
      assert m.strong[p[i - 1]] in Along(m, p);
    }
  }

  /** The objects along a chain from a variable that avoids `s` survive every assignment of `s`. */
  lemma {:induction false} ChainLasts(m: Mem, p: seq<Slot>, s: Slot, o: Obj)
    requires Quiet(m) && s in m.strong && (o == 0 || o in m.live) && Chain(m, p) && s !in p
    ensures Along(m, p) <= Lasting(Releasing(m, s, o))
  {
    var n, k := Releasing(m, s, o), Along(m, p);
    hide Inv, Lasting, Holders;
    forall x | x in k
      ensures HeldFrom(n, x, k + n.dying)
    {
      var i :| 0 <= i < |p| && m.strong[p[i]] == x;
      LinkHolds(m, p, s, o, i);
      assert Anchored(n, p[i], k + n.dying);
    }
    LastingGreatest(n, k);
  }

  /** So its owner lasts if it is a variable, a member of a never-retained object, or reached by such a chain. */
  lemma OwnerOnChainLasts(m: Mem, p: seq<Slot>, s: Slot, o: Obj)
    requires Quiet(m) && s in m.strong && (o == 0 || o in m.live) && Chain(m, p) && s !in p
    requires m.owner[s] == 0 || m.owner[s] in m.unborn || m.owner[s] in Along(m, p)
    ensures OwnerLasts(m, s, o)
  {
    ChainLasts(m, p, s, o);
    if o != 0 && m.owner[s] == o {
      LastingGreatest(Releasing(m, s, o), {o});
    }
  }

  // ---------------------------------------------------------------- creation

  lemma {:induction false} NewObjectInv(m: Mem, o: Obj)
    requires Quiet(m) && o != 0 && o !in m.live && o !in m.deleted
    ensures Quiet(m.(live := m.live + {o}, count := m.count[o := 0], unborn := m.unborn + {o}))
  {
    var n := m.(live := m.live + {o}, count := m.count[o := 0], unborn := m.unborn + {o});
    forall s | s in n.owner
      ensures SlotOk(n, s) && (s in m.strong ==> m.strong[s] != o)
    {
      assert SlotOk(m, s);
    }
    assert Holders(m, o) == {};
    NewObjectCounts(m, o);
    SameWeakOk(m, n);
  }

  lemma {:induction false} NewObjectCounts(m: Mem, o: Obj)
    requires CountsOk(m) && o !in m.live && Holders(m, o) == {}
    ensures CountsOk(m.(live := m.live + {o}, count := m.count[o := 0], unborn := m.unborn + {o}))
  {
    var n := m.(live := m.live + {o}, count := m.count[o := 0], unborn := m.unborn + {o});
    forall x | x in n.live
      ensures CountOk(n, x)
    {
      assert Holders(n, x) == Holders(m, x);
      if x != o {
        assert CountOk(m, x);
      }
    }
  }

  function WithSlot(m: Mem, s: Slot, x: Obj, isStrong: bool): Mem {
    m.(owner := m.owner[s := x],
       strong := if isStrong then m.strong[s := 0] else m.strong,
       weak := if isStrong then m.weak else m.weak[s := 0])
  }

  // ---------------------------------------------------------------- what one sees of it

  /** Weak slot `s` holds `o`, and is registered there; nothing else has changed. */
  ghost predicate WeakHolds(m: Mem, s: Slot, o: Obj, n: Mem) {
    && n == m.(weak := n.weak, table := n.table)
    && n.weak.Keys == m.weak.Keys
    && s in n.weak && n.weak[s] == o
    && (o != 0 ==> o in n.table && s in n.table[o])
    && (forall t :: t in m.weak && t != s ==> n.weak[t] == m.weak[t])
    && (forall t, p :: t != s && p in m.table && t in m.table[p] ==> p in n.table && t in n.table[p])
  }

  lemma WeakHeld(m: Mem, s: Slot, o: Obj)
    requires Quiet(m) && s in m.weak && (o == 0 || o in m.live)
    ensures WeakHolds(m, s, o, if o == 0 then Unregistered(m, s) else Registered(Unregistered(m, s), s, o))
  {
    hide SlotsOk, CountsOk, HistoryOk;
  }

  /**
   * All slots but `s`: gone with their owners, if those are; otherwise a Strong slot holds what it held, and a Weak
   * slot too, unless that is gone.
   */
  ghost predicate OthersKept(m: Mem, s: Slot, n: Mem) {
    && (forall t :: t != s ==> (t in n.owner <==> t in m.owner && (m.owner[t] == 0 || m.owner[t] in n.live)))
    && (forall t :: t != s && t in n.owner ==>
          n.owner[t] == m.owner[t] && (t in n.strong <==> t in m.strong) && (t in n.weak <==> t in m.weak))
    && (forall t :: t != s && t in n.strong && t in m.strong ==> n.strong[t] == m.strong[t])
    && (forall t :: t != s && t in n.weak && t in m.weak ==>
          n.weak[t] == if m.weak[t] in n.live then m.weak[t] else 0)
  }

  /** Objects only go, and each that goes is entered in the history. */
  ghost predicate OnlyDeleted(m: Mem, n: Mem) {
    && n.live <= m.live && m.deleted <= n.deleted
    && forall o :: o in n.deleted <==> o in m.deleted || (o in m.live && o !in n.live)
  }

  lemma AssignedKept(m: Mem, s: Slot, o: Obj, n: Mem)
    requires Quiet(m) && s in m.strong && Shrunk(Assigned(m, s, o), n) && Quiet(n)
    ensures OthersKept(m, s, n) && OnlyDeleted(m, n) && n.unborn == m.unborn - {o}
  {
    hide CountsOk, WeakOk, HistoryOk;
    assert SlotsOk(n) && SlotsOk(m);
  }

  lemma DroppedKept(m: Mem, s: Slot, n: Mem)
    requires Quiet(m) && s in m.strong && Shrunk(WithoutSlot(m, s), n) && Quiet(n)
    ensures OthersKept(m, s, n) && OnlyDeleted(m, n) && n.unborn == m.unborn && s !in n.owner
  {
    hide CountsOk, WeakOk, HistoryOk;
    assert SlotsOk(n) && SlotsOk(m);
  }

  /** An object that only `s` holds is deleted when `s` is assigned something else. */
  lemma LastReference(m: Mem, s: Slot, o: Obj, x: Obj, n: Mem)
    requires Quiet(m) && s in m.strong && (o == 0 || o in m.live) && x in m.live && x != o
    requires Holders(m, x) == {s}
    requires n.live == Lasting(Releasing(m, s, o)) + n.unborn && n.unborn == m.unborn - {o}
    ensures x !in n.live
  {
    var r := Releasing(m, s, o);
    assert CountOk(m, x);
    assert m.strong[s] == x by { assert s in Holders(m, x); }
    assert Holders(r, x) == {};
    LastingSupported(r);
    assert x !in r.pending && !HeldFrom(r, x, Lasting(r) + r.dying);
  }

  lemma {:induction false} WithSlotInv(m: Mem, s: Slot, x: Obj, isStrong: bool)
    requires Quiet(m) && s !in m.owner && (x == 0 || x in m.live)
    ensures Quiet(WithSlot(m, s, x, isStrong))
  {
    WithSlotSlots(m, s, x, isStrong);
    WithSlotCounts(m, s, x, isStrong);
    WithSlotWeak(m, s, x, isStrong);
  }

  lemma {:induction false} WithSlotSlots(m: Mem, s: Slot, x: Obj, isStrong: bool)
    requires SlotsOk(m) && s !in m.owner && (x == 0 || x in m.live)
    ensures SlotsOk(WithSlot(m, s, x, isStrong))
  {
    var n := WithSlot(m, s, x, isStrong);
    forall t | t in n.owner
      ensures SlotOk(n, t)
    {
      if t != s { assert SlotOk(m, t); }
    }
  }

  lemma {:induction false} WithSlotCounts(m: Mem, s: Slot, x: Obj, isStrong: bool)
    requires CountsOk(m) && 0 !in m.live && s !in m.strong
    ensures CountsOk(WithSlot(m, s, x, isStrong))
  {
    var n := WithSlot(m, s, x, isStrong);
    forall y | y in n.live
      ensures CountOk(n, y)
    {
      assert CountOk(m, y);
      assert Holders(n, y) == Holders(m, y);
    }
  }

  lemma {:induction false} WithSlotWeak(m: Mem, s: Slot, x: Obj, isStrong: bool)
    requires WeakOk(m) && s !in m.weak
    ensures WeakOk(WithSlot(m, s, x, isStrong))
  {
    var n := WithSlot(m, s, x, isStrong);
    forall t | t in n.weak
      ensures WeakSlotOk(n, t)
    {
      if t != s { assert WeakSlotOk(m, t); }
    }
    forall o | o in n.table
      ensures EntryOk(n, o)
    {
      assert EntryOk(m, o);
    }
  }
}
