/** `Object`, `Strong`, `Weak` and `Atomic`: counting, the deletion queue, the weak table and
    cascading destruction, as methods that update the memory they share.  Methods that release
    take a ghost set `k` of the caller's choice: if `k` keeps itself alive, no member of it is
    deleted. */
module RefCount {
  import opened Ownership

  class Heap {
    var m: Mem

    constructor ()
      ensures m == EMPTY && Quiet(m)
    {
      m := EMPTY;
    }

    // -------------------------------------------------------------- Object and Atomic

    method Retain(o: Obj)
      requires o in m.count
      modifies this
      ensures m == Retained(old(m), o)
    {
      m := m.(count := m.count[o := m.count[o] + 1],
              pending := m.pending + multiset{o}, unborn := m.unborn - {o});
    }

    /** Gives up one reference; at zero the object is queued and destroyed on the spot. */
    method Release(o: Obj, ghost k: set<Obj>)
      requires Inv(m) && m.queue == [] && m.condemned == {} && o in m.pending
      requires o in m.count && Supported(Dropped(m, o), k, m.dying) && MovingSafe(m, k)
      modifies this
      ensures Inv(m) && m.queue == [] && m.condemned == {}
      ensures Shrunk(old(m), m) && m.pending == old(m).pending - multiset{o}
      ensures k <= m.live
      ensures old(m).count[o] > 1 ==> m.live == old(m).live
      ensures old(m).count[o] == 1 ==> o !in m.live
      ensures k == Lasting(Dropped(old(m), o)) ==> m.live == k + m.dying + m.unborn
      decreases m.live - m.dying, 3
    {
      hide Lasting;
      ghost var m0 := m;
      assert CountOk(m, o);
      m := m.(count := m.count[o := m.count[o] - 1], pending := m.pending - multiset{o});
      assert m == Dropped(m0, o);
      Unlock({});
      if m.count[o] == 0 {
        Expire(o, m0, k);
      } else {
        DroppedInv(m0, o);
        Unlock({});
        ShrunkSelf(m0, m);
        SupportedAlive(m, k, m.dying);
      }
      assert Shrunk(Dropped(m0, o), m);
      if k == Lasting(Dropped(m0, o)) { Survivors(Dropped(m0, o), m); }
    }

    /** The count is zero: the object is queued, and the queue is emptied. */
    method Expire(o: Obj, ghost m0: Mem, ghost k: set<Obj>)
      requires Inv(m0) && m0.queue == [] && m0.condemned == {} && o in m0.pending && o in m0.count
      requires m == Dropped(m0, o) && m.count[o] == 0
      requires Supported(m, k, m.dying) && MovingSafe(m, k)
      modifies this
      ensures Inv(m) && m.queue == [] && m.condemned == {}
      ensures Shrunk(m0, m) && m.pending == old(m).pending && k <= m.live && o !in m.live
      decreases m.live - m.dying, 3, 0
    {
      QueuedInv(m0, o);
      SupportedQueued(m, o, k);
      SameWeakOk(m0, m);
      AddObject(o);
      assert m == Queued(Dropped(m0, o), o);
      Unlock(k);
      ShrunkQueued(m0, o, m);
    }

    /** Queues an object whose count is zero and clears the Weak slots registered under it. */
    method AddObject(o: Obj)
      requires WeakOk(m)
      modifies this
      ensures m == Queued(old(m), o)
    {
      ghost var m0 := m;
      m := m.(queue := m.queue + [o], condemned := m.condemned + {o});
      if o in m.table {
        assert EntryOk(m0, o);
        var q := m.table[o];
        while q != {}
          invariant q <= m0.table[o]
          invariant m == m0.(queue := m.queue, condemned := m.condemned, weak := m.weak)
          invariant m.queue == m0.queue + [o] && m.condemned == m0.condemned + {o}
          invariant m.weak == Cleared(m0.weak, m0.table[o] - q)
        {
          var ptr :| ptr in q;
          m := m.(weak := m.weak[ptr := 0]);
          q := q - {ptr};
        }
        assert m0.table[o] - q == m0.table[o];
        m := m.(table := m.table - {o});
      } else {
        assert m.table - {o} == m.table;
        assert m.weak == Cleared(m.weak, {});
      }
    }

    /** Destroys what is queued.  The queue never holds more than the object just released. */
    method Unlock(ghost k: set<Obj>)
      requires m.queue == []
        || (Inv(m) && |m.queue| == 1 && m.condemned == {m.queue[0]}
            && Supported(m, k, m.dying) && MovingSafe(m, k))
      modifies this
      ensures old(m).queue == [] ==> m == old(m)
      ensures old(m).queue != [] ==>
        && Inv(m) && m.queue == [] && m.condemned == {}
        && Shrunk(old(m), m) && m.pending == old(m).pending
        && k <= m.live && old(m).queue[0] !in m.live
      decreases m.live - m.dying, 2
    {
      ghost var m0 := m;
      while m.queue != []
        invariant m.queue != [] || m0.queue == [] ==> m == m0
        invariant m.queue == [] && m0.queue != [] ==>
          && Inv(m) && m.condemned == {} && Shrunk(m0, m) && m.pending == m0.pending
          && k <= m.live && m0.queue[0] !in m.live
        decreases |m.queue|
      {
        var v := m.queue[0];
        m := m.(queue := m.queue[1..]);
        PoppedInv(m0);
        assert m == m0.(queue := []);
        assert CountOk(m, v);
        if m.count[v] == 0 {
          Delete(v, k);
        }
      }
    }

    /** `delete v`: the destructor gives up every slot of `v`, then the memory goes. */
    method Delete(v: Obj, ghost k: set<Obj>)
      requires Inv(m) && m.queue == [] && m.condemned == {v}
      requires Supported(m, k, m.dying) && MovingSafe(m, k)
      modifies this
      ensures Inv(m) && m.queue == [] && m.condemned == {}
      ensures Shrunk(old(m), m) && m.pending == old(m).pending
      ensures k <= m.live && v !in m.live
      decreases m.live - m.dying, 1
    {
      ghost var m0 := m;
      SupportedAlive(m, k, m.dying);
      DyingInv(m, v);
      m := m.(condemned := {}, dying := m.dying + {v});
      DestroyMembers(v, k, m0.dying);
      ShrunkBuried(m0, m, v);
      BuriedInv(m, v);
      m := m.(live := m.live - {v}, count := m.count - {v}, dying := m.dying - {v}, deleted := m.deleted + [v]);
    }

    /** The destructors of all member slots of `v`, in any order. */
    method DestroyMembers(v: Obj, ghost k: set<Obj>, ghost anchors: set<Obj>)
      requires Inv(m) && m.queue == [] && m.condemned == {}
      requires m.dying == anchors + {v} && v !in k + anchors
      requires Supported(m, k, anchors) && MovingSafe(m, k) && NotMoving(m, v)
      modifies this
      ensures Inv(m) && m.queue == [] && m.condemned == {} && m.pending == old(m).pending
      ensures Shrunk(Stripped(old(m), v), m)
      ensures k <= m.live && v in m.live && Members(m, v) == {}
      decreases m.live - m.dying, 8
    {
      ghost var m1 := m;
      SupportedAlive(m, k, anchors);
      StrippedReflexive(m1, v);
      var mine := Members(m, v);
      while mine != {}
        invariant mine == Members(m, v)
        invariant Destructing(m1, m, v, k, anchors)
        decreases mine
      {
        var s :| s in mine;
        DestroyNext(s, v, m1, k, anchors);
        mine := mine - {s};
      }
      StrippedSame(m, v);
    }

    method DestroyNext(s: Slot, v: Obj, ghost m1: Mem, ghost k: set<Obj>, ghost anchors: set<Obj>)
      requires v !in k + anchors && v in m.dying && anchors <= m.dying && v in m.live && 0 !in m1.live
      requires Destructing(m1, m, v, k, anchors) && s in Members(m, v)
      modifies this
      ensures Destructing(m1, m, v, k, anchors) && Members(m, v) == Members(old(m), v) - {s}
      decreases m.live - m.dying, 7
    {
      ghost var n := m;
      DestroyMember(s, v, k, anchors);
      DestructorStep(m1, n, m, s, v);
      MembersLeft(n, m, s, v);
      NotMovingKept(WithoutSlot(n, s), m, v);
    }

    /** The destructor of one member slot of the object `v`. */
    method DestroyMember(s: Slot, v: Obj, ghost k: set<Obj>, ghost anchors: set<Obj>)
      requires Inv(m) && m.queue == [] && m.condemned == {}
      requires s in m.owner && m.owner[s] == v && v in m.dying && s !in m.moving && v != 0
      requires Supported(m, k, anchors) && v !in k + anchors && anchors <= m.dying && MovingSafe(m, k)
      modifies this
      ensures Inv(m) && m.queue == [] && m.condemned == {}
      ensures Shrunk(WithoutSlot(old(m), s), m) && m.pending == old(m).pending
      ensures k <= m.live && Supported(m, k, anchors) && MovingSafe(m, k)
      decreases m.live - m.dying, 6
    {
      ghost var m0 := m;
      SupportedWithout(m, s, k, anchors);
      SupportedAlive(m, k, anchors);
      assert SlotOk(m, s);
      if s in m.strong {
        ReleasedSupport(m, s, k, anchors);
        DestroyStrong(s, k);
      } else {
        DestroyWeak(s);
      }
      SupportedShrunk(WithoutSlot(m0, s), m, k, anchors);
    }

    /** Releases what a slot holds, if it holds something; the slot is then still to be assigned or taken away. */
    method ReleaseContent(s: Slot, ghost k: set<Obj>)
      requires Inv(m) && m.queue == [] && m.condemned == {}
      requires s in m.strong && s !in m.moving && s in m.owner && Anchored(m, s, k + m.dying)
      requires Supported(Released(m, s), k, m.dying) && MovingSafe(m, k)
      modifies this
      ensures Inv(m) && m.queue == [] && m.condemned == {} && m.pending == old(m).pending
      ensures Shrunk(if old(m).strong[s] != 0 then Moving(old(m), s) else old(m), m)
      ensures k <= m.live
      ensures k == Lasting(Released(old(m), s)) ==> m.live == k + m.dying + m.unborn
      decreases m.live - m.dying, 4
    {
      assert SlotOk(m, s);
      if m.strong[s] != 0 {
        MovingInv(m, s);
        m := m.(moving := m.moving + {s}, pending := m.pending + multiset{m.strong[s]});
        Release(m.strong[s], k);
      } else {
        ShrunkReflexive(m);
        SupportedAlive(m, k, m.dying);
        if k == Lasting(m) { Survivors(m, m); }
      }
    }

    /** `~Strong`. */
    method DestroyStrong(s: Slot, ghost k: set<Obj>)
      requires Inv(m) && m.queue == [] && m.condemned == {}
      requires s in m.strong && s !in m.moving && (m.owner[s] == 0 || m.owner[s] in m.dying)
      requires Supported(Released(m, s), k, m.dying) && MovingSafe(m, k)
      modifies this
      ensures Inv(m) && m.queue == [] && m.condemned == {}
      ensures Shrunk(WithoutSlot(old(m), s), m) && m.pending == old(m).pending
      ensures k <= m.live
      ensures k == Lasting(Released(old(m), s)) ==> m.live == k + m.dying + m.unborn
      decreases m.live - m.dying, 5
    {
      ghost var m0 := m;
      ReleaseContent(s, k);
      if m0.strong[s] != 0 {
        MovingShrunk(m0, m, s);
      } else {
        WithoutSlotShrunk(m0, m, s);
      }
      WithoutSlotInv(m, s);
      WithoutStrong(m, s);
      m := m.(strong := m.strong - {s}, owner := m.owner - {s}, moving := m.moving - {s});
    }

    /** `~Weak`. */
    method DestroyWeak(s: Slot)
      requires Inv(m) && s in m.weak
      modifies this
      ensures Inv(m) && m == WithoutSlot(Unregistered(old(m), s), s)
      ensures Shrunk(WithoutSlot(old(m), s), m)
    {
      ghost var m0 := m;
      UnregisteredInv(m, s);
      UnregisteredShrunk(m, s);
      if m.weak[s] != 0 {
        UnWeak(m.weak[s], s);
      }
      m := m.(weak := m.weak[s := 0]);
      assert WeakSlotOk(m0, s);
      assert m == Unregistered(m0, s);
      WithoutSlotInv(m, s);
      assert m.strong - {s} == m.strong && m.moving - {s} == m.moving;
      m := m.(weak := m.weak - {s}, owner := m.owner - {s});
    }

    /** Takes a slot off the weak table. */
    method UnWeak(o: Obj, s: Slot)
      modifies this
      ensures m == old(m).(table := if o in old(m).table
                                    then old(m).table[o := old(m).table[o] - {s}] else old(m).table)
    {
      if o in m.table {
        m := m.(table := m.table[o := m.table[o] - {s}]);
      }
    }

    // -------------------------------------------------------------- client operations

    /** `new T`: a count of zero and no slots yet.  Addresses are not reused. */
    method NewObject(o: Obj)
      requires Quiet(m) && o != 0 && o !in m.live && o !in m.deleted
      modifies this
      ensures Quiet(m)
      ensures m == old(m).(live := old(m).live + {o}, count := old(m).count[o := 0],
                           unborn := old(m).unborn + {o})
    {
      NewObjectInv(m, o);
      m := m.(live := m.live + {o}, count := m.count[o := 0], unborn := m.unborn + {o});
    }

    /** An empty slot: a variable, or a member of a live object. */
    method NewSlot(s: Slot, x: Obj, isStrong: bool)
      requires Quiet(m) && s !in m.owner && (x == 0 || x in m.live)
      modifies this
      ensures Quiet(m)
      ensures m == WithSlot(old(m), s, x, isStrong)
    {
      WithSlotInv(m, s, x, isStrong);
      m := m.(owner := m.owner[s := x]);
      if isStrong {
        m := m.(strong := m.strong[s := 0]);
      } else {
        m := m.(weak := m.weak[s := 0]);
      }
    }

    /** `Strong::set`: retains the new object, releases the old one, and only then assigns. The owner of the slot
        must survive that release; otherwise its destructor would release the same content once more. */
    method StrongSet(s: Slot, o: Obj)
      requires Quiet(m) && s in m.strong && (o == 0 || o in m.live) && OwnerLasts(m, s, o)
      modifies this
      ensures Quiet(m) && s in m.strong && m.strong[s] == o && (o != 0 ==> o in m.live)
      ensures Shrunk(Assigned(old(m), s, o), m)
      ensures m.live == Lasting(Releasing(old(m), s, o)) + m.unborn
    {
      ghost var m0 := m;
      ghost var k := Lasting(Releasing(m, s, o));
      hide Lasting, Supported, MovingSafe, Anchored, OwnerLasts;
      AssignSupport(m, s, o);
      if o != 0 {
        Retain(o);
      }
      assert m == RetainedIf(m0, o);
      ReleaseContent(s, k);
      AssignDone(m0, s, o, m);
      m := m.(strong := m.strong[s := o], moving := m.moving - {s},
              pending := if o == 0 then m.pending else m.pending - multiset{o});
    }

    /** A variable goes out of scope. */
    method DropVariable(s: Slot)
      requires Quiet(m) && s in m.strong && m.owner[s] == 0
      modifies this
      ensures Quiet(m) && Shrunk(WithoutSlot(old(m), s), m)
      ensures m.live == Lasting(Releasing(old(m), s, 0)) + m.unborn
    {
      hide Lasting, Supported;
      ghost var k := Lasting(Released(m, s));
      LastingSupported(Released(m, s));
      assert k + {} == k;
      DestroyStrong(s, k);
    }

    /** `Weak::set`. */
    method WeakSet(s: Slot, o: Obj)
      requires Quiet(m) && s in m.weak && (o == 0 || o in m.live)
      modifies this
      ensures Quiet(m)
      ensures m == if o == 0 then Unregistered(old(m), s) else Registered(Unregistered(old(m), s), s, o)
      ensures WeakHolds(old(m), s, o, m)
    {
      ghost var m0 := m;
      WeakHeld(m, s, o);
      UnregisteredInv(m, s);
      assert WeakSlotOk(m0, s);
      if m.weak[s] != 0 {
        UnWeak(m.weak[s], s);
      }
      assert m == m0.(table := Unregistered(m0, s).table);
      if o != 0 {
        RegisteredInv(Unregistered(m0, s), s, o);
        Register(o, s);
        assert m.weak[s := o] == m.weak[s := 0][s := o];
      }
      m := m.(weak := m.weak[s := o]);
    }

    /** Enters a slot in the weak table. */
    method Register(o: Obj, s: Slot)
      modifies this
      ensures m == old(m).(table := old(m).table[o := (if o in old(m).table then old(m).table[o] else {}) + {s}])
    {
      if o !in m.table {
        assert {} + {s} == {s};
        m := m.(table := m.table[o := {s}]);
      } else {
        m := m.(table := m.table[o := m.table[o] + {s}]);
      }
    }

    method DropWeak(s: Slot)
      requires Quiet(m) && s in m.weak
      modifies this
      ensures Quiet(m) && m == WithoutSlot(Unregistered(old(m), s), s)
    {
      DestroyWeak(s);
    }
  }

  // ---------------------------------------------------------------- whole runs

  /** What a program does with objects and slots. */
  datatype Call =
    | MakeObject(o: Obj)
    | MakeSlot(s: Slot, owner: Obj, isStrong: bool)
    | AssignStrong(s: Slot, o: Obj)
    | DropStrong(s: Slot)
    | AssignWeak(s: Slot, o: Obj)
    | DropWeak(s: Slot)

  /** The call makes sense: it names what is there, and the owner of an assigned slot outlives the assignment. */
  ghost predicate Possible(m: Mem, c: Call)
    requires Quiet(m)
  {
    match c
    case MakeObject(o) => o != 0 && o !in m.live && o !in m.deleted
    case MakeSlot(s, x, _) => s !in m.owner && (x == 0 || x in m.live)
    case AssignStrong(s, o) => s in m.strong && (o == 0 || o in m.live) && OwnerLasts(m, s, o)
    case DropStrong(s) => s in m.strong && m.owner[s] == 0
    case AssignWeak(s, o) => s in m.weak && (o == 0 || o in m.live)
    case DropWeak(s) => s in m.weak
  }

  /** What a program sees of a call: what its slot holds, and that everything else is kept. */
  ghost predicate Seen(m: Mem, c: Call, n: Mem) {
    match c
    case MakeObject(o) => n == m.(live := n.live, count := n.count, unborn := n.unborn)
      && n.live == m.live + {o} && n.unborn == m.unborn + {o} && n.count == m.count[o := 0]
    case MakeSlot(s, x, isStrong) =>
      && OthersKept(m, s, n) && n == m.(owner := n.owner, strong := n.strong, weak := n.weak)
      && s in n.owner && n.owner[s] == x
      && (if isStrong then s in n.strong && n.strong[s] == 0 else s in n.weak && n.weak[s] == 0)
    case AssignStrong(s, o) =>
      && OthersKept(m, s, n) && OnlyDeleted(m, n) && n.unborn == m.unborn - {o}
      && s in n.strong && n.strong[s] == o
      && (forall x :: x in m.live && x != o && Holders(m, x) == {s} ==> x !in n.live)
    case DropStrong(s) =>
      && OthersKept(m, s, n) && OnlyDeleted(m, n) && n.unborn == m.unborn
      && s !in n.owner
      && (forall x :: x in m.live && Holders(m, x) == {s} ==> x !in n.live)
    case AssignWeak(s, o) => WeakHolds(m, s, o, n)
    case DropWeak(s) => OthersKept(m, s, n) && n.live == m.live && n.deleted == m.deleted && s !in n.owner
  }

  /**
   * What a call makes of the memory. An assignment or a dropped variable deletes exactly the objects that nothing
   * keeps alive any more, each with its slots, and clears the Weak slots that held them.
   */
  ghost predicate Performed(m: Mem, c: Call, n: Mem)
    requires Quiet(m)
  {
    && Quiet(n)
    && Possible(m, c)
    && Seen(m, c, n)
    && match c
       case MakeObject(o) => n == m.(live := m.live + {o}, count := m.count[o := 0], unborn := m.unborn + {o})
       case MakeSlot(s, x, isStrong) => n == WithSlot(m, s, x, isStrong)
       case AssignStrong(s, o) =>
         s in n.strong && n.strong[s] == o
         && Shrunk(Assigned(m, s, o), n) && n.live == Lasting(Releasing(m, s, o)) + n.unborn
       case DropStrong(s) => Shrunk(WithoutSlot(m, s), n) && n.live == Lasting(Releasing(m, s, 0)) + n.unborn
       case AssignWeak(s, o) => n == if o == 0 then Unregistered(m, s) else Registered(Unregistered(m, s), s, o)
       case DropWeak(s) => n == WithoutSlot(Unregistered(m, s), s)
  }

  /** `n` is reached from `m` by the calls in order. */
  ghost predicate Reached(m: Mem, calls: seq<Call>, n: Mem)
    requires Quiet(m)
  {
    if |calls| == 0 then n == m
    else exists mid ::
      Reached(m, calls[..|calls| - 1], mid) && Quiet(mid) && Performed(mid, calls[|calls| - 1], n)
  }

  /** Every call is possible wherever the calls before it lead. */
  ghost predicate Runnable(m: Mem, calls: seq<Call>)
    requires Quiet(m)
  {
    forall i: nat, n: Mem {:trigger Reached(m, calls[..i], n)} ::
      i < |calls| && Reached(m, calls[..i], n) && Quiet(n) ==> Possible(n, calls[i])
  }

  lemma PerformedKeeps(m: Mem, c: Call, n: Mem)
    requires Quiet(m) && Performed(m, c, n)
    ensures Quiet(n) && m.deleted <= n.deleted
  {
    hide Lasting;
  }

  /** Over every run: no object is deleted twice, and what is deleted never comes back. */
  lemma {:induction false} DeletedOnce(m: Mem, calls: seq<Call>, n: Mem)
    requires Quiet(m) && Reached(m, calls, n)
    ensures Quiet(n) && m.deleted <= n.deleted && Distinct(n.deleted)
    ensures forall o :: o in m.deleted ==> o !in n.live
  {
    if |calls| > 0 {
      hide Performed;
      var front, c := calls[..|calls| - 1], calls[|calls| - 1];
      var mid :| Reached(m, front, mid) && Quiet(mid) && Performed(mid, c, n);
      DeletedOnce(m, front, mid);
      PerformedKeeps(mid, c, n);
    }
  }

  /** No slot dangles. */
  lemma NoneDangles(m: Mem)
    requires Quiet(m)
    ensures forall t :: t in m.owner ==> m.owner[t] == 0 || m.owner[t] in m.live
    ensures forall t :: t in m.weak ==> m.weak[t] == 0 || m.weak[t] in m.live
    ensures m.owner.Keys == m.strong.Keys + m.weak.Keys && m.strong.Keys !! m.weak.Keys
  {
    hide CountsOk, HistoryOk;
    assert forall t :: t in m.owner ==> SlotOk(m, t);
    forall t | t in m.weak
      ensures m.weak[t] == 0 || m.weak[t] in m.live
    {
      assert WeakSlotOk(m, t);
    }
  }

  lemma SeenMade(m: Mem, s: Slot, x: Obj, isStrong: bool)
    requires Quiet(m) && s !in m.owner && (x == 0 || x in m.live)
    ensures Seen(m, MakeSlot(s, x, isStrong), WithSlot(m, s, x, isStrong))
  {
    NoneDangles(m);
    hide Quiet;
  }

  lemma SeenAssigned(m: Mem, s: Slot, o: Obj, n: Mem)
    requires Quiet(m) && Possible(m, AssignStrong(s, o)) && Quiet(n)
    requires s in n.strong && n.strong[s] == o && Shrunk(Assigned(m, s, o), n)
    requires n.live == Lasting(Releasing(m, s, o)) + n.unborn
    ensures Seen(m, AssignStrong(s, o), n)
  {
    hide Inv, Lasting, Shrunk, OthersKept, OnlyDeleted, Holders, OwnerLasts;
    AssignedKept(m, s, o, n);
    forall x | x in m.live && x != o && Holders(m, x) == {s}
      ensures x !in n.live
    {
      LastReference(m, s, o, x, n);
    }
  }

  lemma NoneUnborn(m: Mem)
    requires Quiet(m)
    ensures 0 !in m.live && m.unborn - {0} == m.unborn
  {
  }

  lemma SeenDropped(m: Mem, s: Slot, n: Mem)
    requires Quiet(m) && Possible(m, DropStrong(s)) && Quiet(n)
    requires Shrunk(WithoutSlot(m, s), n) && n.live == Lasting(Releasing(m, s, 0)) + n.unborn
    ensures Seen(m, DropStrong(s), n)
  {
    NoneUnborn(m);
    hide Quiet, Lasting, Shrunk, OthersKept, OnlyDeleted, Holders, WithoutSlot, Releasing;
    DroppedKept(m, s, n);
    forall x | x in m.live && Holders(m, x) == {s}
      ensures x !in n.live
    {
      LastReference(m, s, 0, x, n);
    }
  }

  lemma SeenDroppedWeak(m: Mem, s: Slot)
    requires Quiet(m) && s in m.weak
    ensures Seen(m, DropWeak(s), WithoutSlot(Unregistered(m, s), s))
  {
    NoneDangles(m);
    hide Quiet;
  }

  method Perform(heap: Heap, c: Call)
    requires Quiet(heap.m) && Possible(heap.m, c)
    modifies heap
    ensures Quiet(heap.m) && Performed(old(heap.m), c, heap.m)
  {
    hide Inv, Shrunk, Lasting, OwnerLasts, OthersKept, OnlyDeleted, WeakHolds, Holders;
    ghost var m := heap.m;
    match c {
      case MakeObject(o) => heap.NewObject(o);
      case MakeSlot(s, x, isStrong) =>
        SeenMade(m, s, x, isStrong);
        heap.NewSlot(s, x, isStrong);
      case AssignStrong(s, o) =>
        heap.StrongSet(s, o);
        SeenAssigned(m, s, o, heap.m);
      case DropStrong(s) =>
        heap.DropVariable(s);
        SeenDropped(m, s, heap.m);
      case AssignWeak(s, o) => heap.WeakSet(s, o);
      case DropWeak(s) =>
        SeenDroppedWeak(m, s);
        heap.DropWeak(s);
    }
  }

  /** Every run of possible calls goes through, and leads where the calls say. */
  method RunCalls(heap: Heap, calls: seq<Call>)
    requires Quiet(heap.m) && Runnable(heap.m, calls)
    modifies heap
    ensures Quiet(heap.m) && Reached(old(heap.m), calls, heap.m)
  {
    hide Quiet, Performed, Possible;
    ghost var m := heap.m;
    assert calls[..0] == [];
    for i := 0 to |calls|
      invariant Quiet(heap.m) && Reached(m, calls[..i], heap.m)
    {
      ghost var mid := heap.m;
      Perform(heap, calls[i]);
      assert calls[..i + 1][..i] == calls[..i];
      assert Reached(m, calls[..i], mid) && Quiet(mid) && Performed(mid, calls[..i + 1][i], heap.m);
    }
    assert calls[..|calls|] == calls;
  }
}
