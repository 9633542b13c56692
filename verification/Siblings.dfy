/** The sibling chains as a value: for every element id, the ids its five references hold
    (0 for null) and the child sequence they represent.  The pointer assignments of
    `Element.remove`, `append`, `before` and `after` are functions on this value. */
module Siblings {
  import opened DomModel

  datatype Links = Links(first: Id, last: Id, next: Id, prev: Id, parent: Id, kids: seq<Id>)

  type Graph = map<Id, Links>

  function First(s: seq<Id>): Id {
    if s == [] then 0 else s[0]
  }

  function Last(s: seq<Id>): Id {
    if s == [] then 0 else s[|s| - 1]
  }

  /** The five references of `x` and of its children represent `x`'s child sequence, and
      `x` is in turn represented among the children of its parent. */
  ghost predicate Chained(g: Graph, x: Id)
    requires x in g
  {
    var l := g[x];
    && Distinct(l.kids)
    && l.first == First(l.kids) && l.last == Last(l.kids)
    && (forall i {:trigger KidChained(g, x, i)} :: 0 <= i < |l.kids| ==> KidChained(g, x, i))
    && (if l.parent == 0 then l.prev == 0 && l.next == 0
        else l.parent in g && x in g[l.parent].kids)
  }

  ghost predicate KidChained(g: Graph, x: Id, i: int)
    requires x in g && 0 <= i < |g[x].kids|
  {
    var s := g[x].kids;
    && s[i] in g
    && g[s[i]].parent == x
    && g[s[i]].prev == (if i == 0 then 0 else s[i - 1])
    && g[s[i]].next == (if i == |s| - 1 then 0 else s[i + 1])
  }

  ghost predicate AllChained(g: Graph) {
    0 !in g && forall x {:trigger Chained(g, x)} :: x in g ==> Chained(g, x)
  }

  // ---------------------------------------------------------------- removal

  function SetNext(g: Graph, x: Id, to: Id): Graph {
    if x in g then g[x := g[x].(next := to)] else g
  }

  function SetPrev(g: Graph, x: Id, to: Id): Graph {
    if x in g then g[x := g[x].(prev := to)] else g
  }

  function SetKids(g: Graph, x: Id, first: Id, last: Id, kids: seq<Id>): Graph {
    if x in g then g[x := g[x].(first := first, last := last, kids := kids)] else g
  }

  function SetPlace(g: Graph, x: Id, parent: Id, prev: Id, next: Id): Graph {
    if x in g then g[x := g[x].(parent := parent, prev := prev, next := next)] else g
  }

  /** `x` unhooked from its neighbours and its parent. */
  function Unhook(g: Graph, x: Id): Graph
    requires x in g
  {
    var p := g[x].parent;
    if p !in g then g
    else
      var prev, next := g[x].prev, g[x].next;
      var g1 := SetPrev(SetNext(g, prev, next), next, prev);
      var g2 := SetKids(g1, p,
                        if prev == 0 then next else g[p].first,
                        if next == 0 then prev else g[p].last,
                        Without(g[p].kids, x));
      SetPlace(g2, x, 0, 0, 0)
  }

  lemma {:induction false} PlaceOf(g: Graph, x: Id) returns (k: nat)
    requires AllChained(g) && x in g && g[x].parent != 0
    ensures g[x].parent in g
    ensures k < |g[g[x].parent].kids| && g[g[x].parent].kids[k] == x
    ensures KidChained(g, g[x].parent, k) && Distinct(g[g[x].parent].kids)
  {
    assert Chained(g, x);
    var p := g[x].parent;
    assert Chained(g, p);
    k :| 0 <= k < |g[p].kids| && g[p].kids[k] == x;
    assert KidChained(g, p, k);
  }

  /** What the references of `y` are in `h`, the graph `g` with `x` unhooked. */
  ghost predicate UnhookedAt(g: Graph, h: Graph, x: Id, y: Id)
    requires x in g && g[x].parent in g && y in g && y in h
  {
    var l, p := h[y], g[x].parent;
    && l.parent == (if y == x then 0 else g[y].parent)
    && l.next == (if y == x then 0 else if y == g[x].prev then g[x].next else g[y].next)
    && l.prev == (if y == x then 0 else if y == g[x].next then g[x].prev else g[y].prev)
    && l.first == (if y == p && g[x].prev == 0 then g[x].next else g[y].first)
    && l.last == (if y == p && g[x].next == 0 then g[x].prev else g[y].last)
    && l.kids == (if y == p then Without(g[p].kids, x) else g[y].kids)
  }

  ghost predicate Unhooked(g: Graph, h: Graph, x: Id) {
    && AllChained(g) && x in g && g[x].parent in g && h.Keys == g.Keys
    && forall y {:trigger UnhookedAt(g, h, x, y)} :: y in g ==> UnhookedAt(g, h, x, y)
  }

  lemma {:induction false} UnhookFields(g: Graph, x: Id)
    requires AllChained(g) && x in g && g[x].parent in g
    ensures Unhooked(g, Unhook(g, x), x)
  {
    var h := Unhook(g, x);
    forall y | y in g
      ensures y in h && UnhookedAt(g, h, x, y)
    {
    }
    assert h.Keys == g.Keys;
  }

  /** The neighbours of `x`, which stands at index `k`. */
  lemma {:induction false} Neighbours(g: Graph, x: Id, k: nat)
    requires AllChained(g) && x in g && g[x].parent in g
    requires k < |g[g[x].parent].kids| && g[g[x].parent].kids[k] == x
    ensures
      var p := g[x].parent;
      var s := g[p].kids;
      && Distinct(s) && g[p].first == s[0] && g[p].last == s[|s| - 1]
      && (if k == 0 then g[x].prev == 0
          else g[x].prev == s[k - 1] && s[k - 1] in g && g[s[k - 1]].parent == p)
      && (if k == |s| - 1 then g[x].next == 0
          else g[x].next == s[k + 1] && s[k + 1] in g && g[s[k + 1]].parent == p)
  {
    var p := g[x].parent;
    assert Chained(g, p);
    assert KidChained(g, p, k);
    if k > 0 { assert KidChained(g, p, k - 1); }
    if k < |g[p].kids| - 1 { assert KidChained(g, p, k + 1); }
  }

  lemma {:induction false} UnhookChained(g: Graph, x: Id)
    requires AllChained(g) && x in g
    ensures AllChained(Unhook(g, x))
    ensures Unhook(g, x)[x].parent == 0
  {
    assert Chained(g, x);
    if g[x].parent != 0 {
      var h := Unhook(g, x);
      UnhookFields(g, x);
      var k := PlaceOf(g, x);
      forall z | z in h
        ensures Chained(h, z)
      {
        if z == g[x].parent {
          UnhookAtParent(g, h, x, k);
        } else {
          UnhookElsewhere(g, h, x, k, z);
        }
      }
      assert UnhookedAt(g, h, x, x);
    }
  }

  lemma {:induction false} UnhookElsewhere(g: Graph, h: Graph, x: Id, k: nat, z: Id)
    requires Unhooked(g, h, x) && z in g && z != g[x].parent
    requires k < |g[g[x].parent].kids| && g[g[x].parent].kids[k] == x
    ensures Chained(h, z)
  {
    Neighbours(g, x, k);
    assert Chained(g, z);
    assert UnhookedAt(g, h, x, z);
    var t := h[z].kids;
    forall i | 0 <= i < |t|
      ensures KidChained(h, z, i)
    {
      assert KidChained(g, z, i);
      assert UnhookedAt(g, h, x, t[i]);
    }
    if h[z].parent != 0 {
      assert UnhookedAt(g, h, x, h[z].parent);
    }
  }

  lemma {:induction false} UnhookAtParent(g: Graph, h: Graph, x: Id, k: nat)
    requires Unhooked(g, h, x)
    requires k < |g[g[x].parent].kids| && g[g[x].parent].kids[k] == x
    ensures Chained(h, g[x].parent)
  {
    var p := g[x].parent;
    Neighbours(g, x, k);
    assert Chained(g, p);
    assert UnhookedAt(g, h, x, p);
    UnhookEnds(g[p].kids, k);
    forall i | 0 <= i < |h[p].kids|
      ensures KidChained(h, p, i)
    {
      UnhookKid(g, h, x, k, i);
    }
    WithoutDistinct(g[p].kids, x);
    if h[p].parent != 0 {
      assert UnhookedAt(g, h, x, h[p].parent);
    }
  }

  lemma {:induction false} UnhookEnds(s: seq<Id>, k: nat)
    requires Distinct(s) && k < |s|
    ensures First(Without(s, s[k])) == if k > 0 then s[0] else if |s| > 1 then s[1] else 0
    ensures Last(Without(s, s[k])) ==
      if k < |s| - 1 then s[|s| - 1] else if |s| > 1 then s[|s| - 2] else 0
  {
    WithoutAt(s, k);
  }

  lemma {:induction false} UnhookIndex(s: seq<Id>, k: nat, i: nat)
    requires Distinct(s) && k < |s| && i < |s| - 1
    ensures |Without(s, s[k])| == |s| - 1
    ensures Without(s, s[k])[i] == s[if i < k then i else i + 1]
  {
    WithoutAt(s, k);
  }

  lemma Differ(s: seq<Id>, i: nat, j: nat)
    requires Distinct(s) && i < |s| && j < |s|
    ensures s[i] == s[j] <==> i == j
  {
  }

  /** What becomes of the links of the sibling at index `j`. */
  lemma UnhookSibling(g: Graph, h: Graph, x: Id, k: nat, j: nat)
    requires Unhooked(g, h, x) && j < |g[g[x].parent].kids| && j != k
    requires k < |g[g[x].parent].kids| && g[g[x].parent].kids[k] == x
    ensures
      var p := g[x].parent;
      var s := g[p].kids;
      && s[j] in h && h[s[j]].parent == p
      && h[s[j]].prev == (if j == 0 || (j == 1 && k == 0) then 0 else if j == k + 1 then s[k - 1] else s[j - 1])
      && h[s[j]].next
           == (if j == |s| - 1 || (j == |s| - 2 && k == |s| - 1) then 0 else if j == k - 1 then s[k + 1] else s[j + 1])
  {
    hide Distinct, First, Last;
    var p := g[x].parent;
    var s := g[p].kids;
    Neighbours(g, x, k);
    assert Chained(g, p) && KidChained(g, p, j);
    assert UnhookedAt(g, h, x, s[j]);
    Differ(s, j, k);
    if k > 0 { Differ(s, j, k - 1); }
    if k < |s| - 1 { Differ(s, j, k + 1); }
  }

  lemma {:induction false} UnhookKid(g: Graph, h: Graph, x: Id, k: nat, i: nat)
    requires Unhooked(g, h, x) && i < |h[g[x].parent].kids|
    requires k < |g[g[x].parent].kids| && g[g[x].parent].kids[k] == x
    ensures KidChained(h, g[x].parent, i)
  {
    hide Distinct, First, Last;
    var p := g[x].parent;
    Neighbours(g, x, k);
    assert UnhookedAt(g, h, x, p);
    var s, t := g[p].kids, h[p].kids;
    UnhookIndex(s, k, if k == 0 then |s| - 2 else 0);
    UnhookIndex(s, k, i);
    if i > 0 { UnhookIndex(s, k, i - 1); }
    if i < |t| - 1 { UnhookIndex(s, k, i + 1); }
    UnhookSibling(g, h, x, k, if i < k then i else i + 1);
  }

  // ---------------------------------------------------------------- insertion

  /** The parentless `x` hooked in under `p`, between the siblings `prev` and `next`
      (0 where there is none). */
  function Hook(g: Graph, p: Id, x: Id, prev: Id, next: Id, kids: seq<Id>): Graph
    requires p in g
  {
    var g1 := SetPrev(SetNext(g, prev, x), next, x);
    var g2 := SetKids(g1, p, if prev == 0 then x else g[p].first, if next == 0 then x else g[p].last, kids);
    SetPlace(g2, x, p, prev, next)
  }

  function InsertAt(s: seq<Id>, k: nat, x: Id): (r: seq<Id>)
    requires k <= |s|
    ensures |r| == |s| + 1
  {
    s[..k] + [x] + s[k..]
  }

  lemma InsertLast(s: seq<Id>, x: Id)
    ensures InsertAt(s, |s|, x) == s + [x]
  {
    assert s[..|s|] == s && s[|s|..] == [];
  }

  lemma InsertBeforeIs(s: seq<Id>, k: nat, x: Id)
    requires Distinct(s) && k < |s|
    ensures InsertBefore(s, s[k], x) == InsertAt(s, k, x)
  {
    InsertBeforeAt(s, k, x);
  }

  lemma InsertAfterIs(s: seq<Id>, k: nat, x: Id)
    requires Distinct(s) && k < |s|
    ensures InsertAfter(s, s[k], x) == InsertAt(s, k + 1, x)
  {
    InsertAfterAt(s, k, x);
  }

  function KidBefore(s: seq<Id>, k: nat): Id
    requires k <= |s|
  {
    if k == 0 then 0 else s[k - 1]
  }

  function KidFrom(s: seq<Id>, k: nat): Id
    requires k <= |s|
  {
    if k == |s| then 0 else s[k]
  }

  ghost predicate HookedAt(g: Graph, h: Graph, p: Id, x: Id, k: nat, y: Id)
    requires p in g && k <= |g[p].kids| && y in g && y in h
  {
    var l, prev, next := h[y], KidBefore(g[p].kids, k), KidFrom(g[p].kids, k);
    && l.parent == (if y == x then p else g[y].parent)
    && l.next == (if y == x then next else if y == prev then x else g[y].next)
    && l.prev == (if y == x then prev else if y == next then x else g[y].prev)
    && l.first == (if y == p && prev == 0 then x else g[y].first)
    && l.last == (if y == p && next == 0 then x else g[y].last)
    && l.kids == (if y == p then InsertAt(g[p].kids, k, x) else g[y].kids)
  }

  /** `x` has been hooked in at index `k` of `p`'s child sequence. */
  ghost predicate Hooked(g: Graph, h: Graph, p: Id, x: Id, k: nat) {
    && AllChained(g) && x in g && p in g && g[x].parent == 0 && h.Keys == g.Keys && k <= |g[p].kids|
    && forall y {:trigger HookedAt(g, h, p, x, k, y)} :: y in g ==> HookedAt(g, h, p, x, k, y)
  }

  lemma {:induction false} HookFields(g: Graph, p: Id, x: Id, k: nat)
    requires AllChained(g) && x in g && p in g && g[x].parent == 0 && k <= |g[p].kids|
    ensures
      var s := g[p].kids;
      Hooked(g, Hook(g, p, x, KidBefore(s, k), KidFrom(s, k), InsertAt(s, k, x)), p, x, k)
  {
    assert Chained(g, p) && Chained(g, x);
    if k > 0 { assert KidChained(g, p, k - 1); }
    if k < |g[p].kids| { assert KidChained(g, p, k); }
    var s := g[p].kids;
    HookPointwise(g, p, x, KidBefore(s, k), KidFrom(s, k), k);
  }

  lemma {:induction false} HookPointwise(g: Graph, p: Id, x: Id, prev: Id, next: Id, k: nat)
    requires 0 !in g && x in g && p in g && k <= |g[p].kids|
    requires prev == KidBefore(g[p].kids, k) && next == KidFrom(g[p].kids, k)
    requires g[x].parent == g[x].prev == g[x].next == 0 && prev != x && next != x
    requires (prev == 0 || prev in g) && (next == 0 || next in g)
    ensures
      var h := Hook(g, p, x, prev, next, InsertAt(g[p].kids, k, x));
      h.Keys == g.Keys && forall y :: y in g ==> HookedAt(g, h, p, x, k, y)
  {
    var kids := InsertAt(g[p].kids, k, x);
    var h := Hook(g, p, x, prev, next, kids);
    forall y | y in g
      ensures y in h && HookedAt(g, h, p, x, k, y)
    {
    }
  }

  lemma {:induction false} HookChained(g: Graph, h: Graph, p: Id, x: Id, k: nat)
    requires Hooked(g, h, p, x, k)
    ensures AllChained(h)
  {
    forall z | z in h
      ensures Chained(h, z)
    {
      if z == p {
        HookAtParent(g, h, p, x, k);
      } else {
        HookElsewhere(g, h, p, x, k, z);
      }
    }
  }

  lemma {:induction false} HookElsewhere(g: Graph, h: Graph, p: Id, x: Id, k: nat, z: Id)
    requires Hooked(g, h, p, x, k) && z in g && z != p
    ensures Chained(h, z)
  {
    assert Chained(g, z) && Chained(g, p);
    assert HookedAt(g, h, p, x, k, z) && HookedAt(g, h, p, x, k, p);
    if k > 0 { assert KidChained(g, p, k - 1); }
    if k < |g[p].kids| { assert KidChained(g, p, k); }
    var t := h[z].kids;
    forall i | 0 <= i < |t|
      ensures KidChained(h, z, i)
    {
      assert KidChained(g, z, i);
      assert HookedAt(g, h, p, x, k, t[i]);
    }
    if h[z].parent != 0 && h[z].parent != p {
      assert HookedAt(g, h, p, x, k, h[z].parent);
    }
    InsertMembers(g[p].kids, k, x);
  }

  lemma {:induction false} InsertMembers(s: seq<Id>, k: nat, x: Id)
    requires k <= |s|
    ensures forall y :: y in InsertAt(s, k, x) <==> y == x || y in s
  {
    assert s == s[..k] + s[k..];
  }

  lemma {:induction false} InsertDistinct(s: seq<Id>, k: nat, x: Id)
    requires k <= |s| && Distinct(s) && x !in s
    ensures Distinct(InsertAt(s, k, x))
  {
  }

  lemma {:induction false} HookAtParent(g: Graph, h: Graph, p: Id, x: Id, k: nat)
    requires Hooked(g, h, p, x, k)
    ensures Chained(h, p)
  {
    assert Chained(g, p) && Chained(g, x);
    assert HookedAt(g, h, p, x, k, p);
    var s := g[p].kids;
    forall i | 0 <= i < |s|
      ensures s[i] != x
    {
      assert KidChained(g, p, i);
    }
    InsertDistinct(s, k, x);
    InsertMembers(s, k, x);
    forall i | 0 <= i < |h[p].kids|
      ensures KidChained(h, p, i)
    {
      HookKid(g, h, p, x, k, i);
    }
    if k > 0 { assert KidChained(g, p, k - 1); }
    if k < |s| { assert KidChained(g, p, k); }
    if h[p].parent != 0 && h[p].parent != p {
      assert HookedAt(g, h, p, x, k, h[p].parent);
    }
  }

  lemma {:induction false} HookKid(g: Graph, h: Graph, p: Id, x: Id, k: nat, i: nat)
    requires Hooked(g, h, p, x, k) && x !in g[p].kids && i < |h[p].kids|
    ensures KidChained(h, p, i)
  {
    assert HookedAt(g, h, p, x, k, p) && HookedAt(g, h, p, x, k, x);
    assert Chained(g, p);
    var s := g[p].kids;
    if k > 0 { assert KidChained(g, p, k - 1); }
    if k < |s| { assert KidChained(g, p, k); }
    if i != k {
      var j := if i < k then i else i - 1;
      assert KidChained(g, p, j);
      assert HookedAt(g, h, p, x, k, s[j]);
      assert k > 0 ==> (s[j] == s[k - 1] <==> j == k - 1);
      assert k < |s| ==> (s[j] == s[k] <==> j == k);
    }
  }

  // ---------------------------------------------------------------- creation

  lemma {:induction false} LoneChained(g: Graph, x: Id)
    requires AllChained(g) && x != 0 && x !in g
    ensures AllChained(g[x := Links(0, 0, 0, 0, 0, [])])
  {
    var h := g[x := Links(0, 0, 0, 0, 0, [])];
    forall z | z in h
      ensures Chained(h, z)
    {
      if z != x {
        assert Chained(g, z);
        forall i | 0 <= i < |h[z].kids|
          ensures KidChained(h, z, i)
        {
          assert KidChained(g, z, i);
        }
      }
    }
  }
}
