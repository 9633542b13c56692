/** The abstract value of a document: what an observer of `Document` and `Element` can see,
    with element references replaced by element ids (0 stands for "no element", as in the
    recorded commands).  Nothing here mentions sibling pointers: child order is a sequence. */
module DomModel {
  type Id = int

  datatype Node = Node(name: string, parent: Id, kids: seq<Id>, attrs: map<string, string>)

  datatype Dom = Dom(
    autoKey: int,
    nodes: map<Id, Node>,
    byName: map<string, seq<Id>>,
    root: Id,
    keys: map<string, Id>,
    names: map<Id, string>)

  const EMPTY := Dom(0, map[], map[], 0, map[], map[])

  // ---------------------------------------------------------------- child sequences

  /** The sequence with every occurrence of `x` deleted. */
  function Without(s: seq<Id>, x: Id): (r: seq<Id>)
    ensures x !in r
    ensures forall y :: y in r <==> y in s && y != x
    ensures x !in s ==> r == s
  {
    if s == [] then []
    else if s[0] == x then Without(s[1..], x)
    else [s[0]] + Without(s[1..], x)
  }

  /** The sequence with `x` inserted just before the first occurrence of `t`. */
  function InsertBefore(s: seq<Id>, t: Id, x: Id): (r: seq<Id>)
    requires t in s
  {
    if s[0] == t then [x] + s else [s[0]] + InsertBefore(s[1..], t, x)
  }

  /** The sequence with `x` inserted just after the first occurrence of `t`. */
  function InsertAfter(s: seq<Id>, t: Id, x: Id): (r: seq<Id>)
    requires t in s
  {
    if s[0] == t then [t, x] + s[1..] else [s[0]] + InsertAfter(s[1..], t, x)
  }

  ghost predicate Distinct<T>(s: seq<T>) {
    forall i, j :: 0 <= i < j < |s| ==> s[i] != s[j]
  }

  lemma WithoutFirst(s: seq<Id>, x: Id)
    requires s != []
    ensures Without(s, x) == if s[0] == x then Without(s[1..], x) else [s[0]] + Without(s[1..], x)
    ensures x !in s[1..] ==> Without(s[1..], x) == s[1..]
  {
  }

  lemma {:induction false} WithoutAt(s: seq<Id>, k: nat)
    requires Distinct(s) && k < |s|
    ensures Without(s, s[k]) == s[..k] + s[k + 1..]
  {
    hide Without;
    var x, r := s[k], s[1..];
    WithoutFirst(s, x);
    if k == 0 {
      assert x !in r;
    } else {
      assert r[k - 1] == x && Distinct(r);
      WithoutAt(r, k - 1);
      assert r[..k - 1] == s[1..k] && r[k..] == s[k + 1..];
      assert s[..k] == [s[0]] + s[1..k];
    }
  }

  lemma {:induction false} InsertBeforeAt(s: seq<Id>, k: nat, x: Id)
    requires Distinct(s) && k < |s|
    ensures InsertBefore(s, s[k], x) == s[..k] + [x] + s[k..]
  {
    if k > 0 {
      InsertBeforeAt(s[1..], k - 1, x);
      assert s[1..][..k - 1] == s[1..k] && s[1..][k - 1..] == s[k..];
      assert s[..k] == [s[0]] + s[1..k];
    }
  }

  lemma {:induction false} InsertAfterAt(s: seq<Id>, k: nat, x: Id)
    requires Distinct(s) && k < |s|
    ensures InsertAfter(s, s[k], x) == s[..k + 1] + [x] + s[k + 1..]
  {
    if k > 0 {
      InsertAfterAt(s[1..], k - 1, x);
      assert s[1..][..k] == s[1..k + 1] && s[1..][k..] == s[k + 1..];
      assert s[..k + 1] == [s[0]] + s[1..k + 1];
    } else {
      assert s[..1] == [s[0]];
    }
  }

  // ---------------------------------------------------------------- tree operations

  /** `x` taken out of its parent's child sequence; nothing happens to a parentless `x`. */
  function Remove(d: Dom, x: Id): (r: Dom)
    requires x in d.nodes
    ensures r.nodes.Keys == d.nodes.Keys
  {
    var p := d.nodes[x].parent;
    if p !in d.nodes then d
    else
      var nodes := d.nodes[p := d.nodes[p].(kids := Without(d.nodes[p].kids, x))];
      d.(nodes := nodes[x := nodes[x].(parent := 0)])
  }

  /** `x` given the parent `p`, whose child sequence becomes `kids`. */
  function Link(d: Dom, p: Id, x: Id, kids: seq<Id>): (r: Dom)
    requires p in d.nodes && x in d.nodes
    ensures r.nodes.Keys == d.nodes.Keys
  {
    var nodes := d.nodes[p := d.nodes[p].(kids := kids)];
    d.(nodes := nodes[x := nodes[x].(parent := p)])
  }

  function Append(d: Dom, t: Id, x: Id): (r: Dom)
    requires t in d.nodes && x in d.nodes
    ensures r.nodes.Keys == d.nodes.Keys
  {
    var e := Remove(d, x);
    Link(e, t, x, e.nodes[t].kids + [x])
  }

  /** Moves `x` to the place before `t`; when `t` has no parent once `x` has been
      removed (in particular when `t == x`), only the removal happens.  (In a linked
      document an element with a parent is always among that parent's children.) */
  function Before(d: Dom, t: Id, x: Id): (r: Dom)
    requires t in d.nodes && x in d.nodes
    ensures r.nodes.Keys == d.nodes.Keys
  {
    var e := Remove(d, x);
    var p := e.nodes[t].parent;
    if p !in e.nodes || t !in e.nodes[p].kids then e
    else Link(e, p, x, InsertBefore(e.nodes[p].kids, t, x))
  }

  function After(d: Dom, t: Id, x: Id): (r: Dom)
    requires t in d.nodes && x in d.nodes
    ensures r.nodes.Keys == d.nodes.Keys
  {
    var e := Remove(d, x);
    var p := e.nodes[t].parent;
    if p !in e.nodes || t !in e.nodes[p].kids then e
    else Link(e, p, x, InsertAfter(e.nodes[p].kids, t, x))
  }

  // ---------------------------------------------------------------- well-formedness

  /** Parent fields and child sequences agree, in both directions, without repetition. */
  ghost predicate Linked(d: Dom) {
    0 !in d.nodes && forall x :: x in d.nodes ==> NodeLinked(d, x)
  }

  ghost predicate NodeLinked(d: Dom, x: Id)
    requires x in d.nodes
  {
    var node := d.nodes[x];
    && Distinct(node.kids)
    && (node.parent == 0 || (node.parent in d.nodes && x in d.nodes[node.parent].kids))
    && (forall y :: y in node.kids ==> y in d.nodes && d.nodes[y].parent == x)
  }

  lemma {:induction false} WithoutDistinct(s: seq<Id>, x: Id)
    requires Distinct(s)
    ensures Distinct(Without(s, x))
  {
    hide Without;
    if x in s {
      var k :| 0 <= k < |s| && s[k] == x;
      WithoutAt(s, k);
    }
  }

  lemma {:induction false} RemoveLinked(d: Dom, x: Id)
    requires Linked(d) && x in d.nodes
    ensures Linked(Remove(d, x))
    ensures Remove(d, x).nodes[x].parent == 0
  {
    var p := d.nodes[x].parent;
    assert NodeLinked(d, x);
    if p != 0 {
      var e := Remove(d, x);
      forall z | z in e.nodes
        ensures NodeLinked(e, z)
      {
        assert NodeLinked(d, z);
        assert e.nodes[z].kids == if z == p then Without(d.nodes[p].kids, x) else d.nodes[z].kids;
        assert e.nodes[z].parent == if z == x then 0 else d.nodes[z].parent;
        if z == p {
          WithoutDistinct(d.nodes[p].kids, x);
        }
        assert Distinct(e.nodes[z].kids);
      }
    }
  }

  lemma {:induction false} SpliceMembers(s: seq<Id>, k: nat, x: Id)
    requires k <= |s|
    ensures forall y :: y in s[..k] + [x] + s[k..] <==> y == x || y in s
    ensures Distinct(s) && x !in s ==> Distinct(s[..k] + [x] + s[k..])
  {
    assert s == s[..k] + s[k..];
  }

  lemma {:induction false} LinkLinked(d: Dom, p: Id, x: Id, k: nat)
    requires Linked(d) && p in d.nodes && x in d.nodes && d.nodes[x].parent == 0
    requires k <= |d.nodes[p].kids|
    ensures Linked(Link(d, p, x, d.nodes[p].kids[..k] + [x] + d.nodes[p].kids[k..]))
  {
    var s := d.nodes[p].kids;
    SpliceMembers(s, k, x);
    LinkSplicedLinked(d, p, x, s[..k] + [x] + s[k..]);
  }

  lemma {:induction false} LinkSplicedLinked(d: Dom, p: Id, x: Id, s: seq<Id>)
    requires Linked(d) && p in d.nodes && x in d.nodes && d.nodes[x].parent == 0
    requires forall y :: y in s <==> y == x || y in d.nodes[p].kids
    requires Distinct(d.nodes[p].kids) && x !in d.nodes[p].kids ==> Distinct(s)
    ensures Linked(Link(d, p, x, s))
  {
    var e := Link(d, p, x, s);
    assert NodeLinked(d, p);
    forall z | z in e.nodes
      ensures NodeLinked(e, z)
    {
      assert NodeLinked(d, z);
    }
  }

  lemma {:induction false} AppendLinked(d: Dom, t: Id, x: Id)
    requires Linked(d) && t in d.nodes && x in d.nodes
    ensures Linked(Append(d, t, x))
  {
    RemoveLinked(d, x);
    var e := Remove(d, x);
    var s := e.nodes[t].kids;
    assert s[..|s|] + [x] + s[|s|..] == s + [x];
    LinkLinked(e, t, x, |s|);
  }

  lemma {:induction false} BeforeLinked(d: Dom, t: Id, x: Id)
    requires Linked(d) && t in d.nodes && x in d.nodes
    ensures Linked(Before(d, t, x))
  {
    RemoveLinked(d, x);
    var e := Remove(d, x);
    var p := e.nodes[t].parent;
    assert NodeLinked(e, t);
    if p in e.nodes {
      assert NodeLinked(e, p);
      var s := e.nodes[p].kids;
      var k :| 0 <= k < |s| && s[k] == t;
      InsertBeforeAt(s, k, x);
      LinkLinked(e, p, x, k);
    }
  }

  lemma {:induction false} AfterLinked(d: Dom, t: Id, x: Id)
    requires Linked(d) && t in d.nodes && x in d.nodes
    ensures Linked(After(d, t, x))
  {
    RemoveLinked(d, x);
    var e := Remove(d, x);
    var p := e.nodes[t].parent;
    assert NodeLinked(e, t);
    if p in e.nodes {
      assert NodeLinked(e, p);
      var s := e.nodes[p].kids;
      var k :| 0 <= k < |s| && s[k] == t;
      InsertAfterAt(s, k, x);
      LinkLinked(e, p, x, k + 1);
    }
  }

  // ---------------------------------------------------------------- where elements end up

  /** `e` has the same elements, names and attributes as `d`, and `x` has been deleted from
      every child sequence and reinserted only in that of `p` (nowhere if `p == 0`),
      which becomes `kids`. */
  ghost predicate Moved(d: Dom, e: Dom, x: Id, p: Id, kids: seq<Id>) {
    && e == d.(nodes := e.nodes) && e.nodes.Keys == d.nodes.Keys
    && forall y :: y in d.nodes ==>
         e.nodes[y] == d.nodes[y].(parent := if y == x then p else d.nodes[y].parent,
                                   kids := if y == p then kids else Without(d.nodes[y].kids, x))
  }

  lemma {:induction false} RemoveMoves(d: Dom, x: Id)
    requires Linked(d) && x in d.nodes
    ensures Moved(d, Remove(d, x), x, 0, [])
  {
    forall y | y in d.nodes
      ensures Remove(d, x).nodes[y] == d.nodes[y].(
        parent := if y == x then 0 else d.nodes[y].parent, kids := Without(d.nodes[y].kids, x))
    {
      assert NodeLinked(d, x) && NodeLinked(d, y);
    }
  }

  lemma {:induction false} AppendMoves(d: Dom, t: Id, x: Id)
    requires Linked(d) && t in d.nodes && x in d.nodes
    ensures Moved(d, Append(d, t, x), x, t, Without(d.nodes[t].kids, x) + [x])
  {
    RemoveMoves(d, x);
  }

  lemma {:induction false} BeforeMoves(d: Dom, t: Id, x: Id)
    requires Linked(d) && t in d.nodes && x in d.nodes
    ensures
      var p := d.nodes[t].parent;
      if t == x || p == 0 then Before(d, t, x) == Remove(d, x)
      else
        t in Without(d.nodes[p].kids, x)
        && Moved(d, Before(d, t, x), x, p, InsertBefore(Without(d.nodes[p].kids, x), t, x))
  {
    RemoveMoves(d, x);
    assert NodeLinked(d, t);
  }

  lemma {:induction false} AfterMoves(d: Dom, t: Id, x: Id)
    requires Linked(d) && t in d.nodes && x in d.nodes
    ensures
      var p := d.nodes[t].parent;
      if t == x || p == 0 then After(d, t, x) == Remove(d, x)
      else
        t in Without(d.nodes[p].kids, x)
        && Moved(d, After(d, t, x), x, p, InsertAfter(Without(d.nodes[p].kids, x), t, x))
  {
    RemoveMoves(d, x);
    assert NodeLinked(d, t);
  }

  // ---------------------------------------------------------------- acyclicity

  /** The `n`-th ancestor of `x` (0 once the chain has left the document). */
  ghost function Up(d: Dom, x: Id, n: nat): Id
    decreases n
  {
    if x !in d.nodes then 0
    else if n == 0 then x
    else Up(d, d.nodes[x].parent, n - 1)
  }

  /** Every upward chain ends: no element lies below itself. */
  ghost predicate Acyclic(d: Dom) {
    forall x :: x in d.nodes ==> Rooted(d, x)
  }

  ghost predicate Rooted(d: Dom, x: Id) {
    exists n: nat :: Up(d, x, n) == 0
  }

  /** `a` is `x` or lies above it. */
  ghost predicate AtOrAbove(d: Dom, a: Id, x: Id) {
    exists n: nat :: Up(d, x, n) == a
  }

  /** `d` and `e` have the same elements, with the same parents except perhaps for `x`. */
  ghost predicate AgreeExcept(d: Dom, e: Dom, x: Id) {
    && 0 !in d.nodes && x in d.nodes && e.nodes.Keys == d.nodes.Keys
    && forall y :: y in d.nodes && y != x ==> e.nodes[y].parent == d.nodes[y].parent
  }

  /** `e` is `d` with the parent of `x`, which had none, set to `p`. */
  ghost predicate Reparented(d: Dom, e: Dom, x: Id, p: Id) {
    && AgreeExcept(d, e, x)
    && p in d.nodes && d.nodes[x].parent == 0 && e.nodes[x].parent == p
  }

  /** A chain that misses `x` is the same before and after. */
  lemma {:induction false} UpMissing(d: Dom, e: Dom, x: Id, p: Id, y: Id, n: nat)
    requires Reparented(d, e, x, p) && !AtOrAbove(d, x, y)
    ensures Up(e, y, n) == Up(d, y, n)
    decreases n
  {
    if y in d.nodes && n > 0 {
      assert Up(d, y, 0) == y;
      var q := d.nodes[y].parent;
      forall k: nat
        ensures Up(d, q, k) != x
      {
        assert Up(d, y, k + 1) == Up(d, q, k);
      }
      UpMissing(d, e, x, p, q, n - 1);
    }
  }

  lemma {:induction false} RootedBelow(d: Dom, e: Dom, x: Id, p: Id, y: Id, n: nat)
    requires Reparented(d, e, x, p) && Rooted(e, x) && Up(d, y, n) == 0
    ensures Rooted(e, y)
    decreases n
  {
    if y !in e.nodes {
      assert Up(e, y, 0) == 0;
    } else if y != x {
      var q := d.nodes[y].parent;
      if n == 0 { assert false; }
      RootedBelow(d, e, x, p, q, n - 1);
      var m: nat :| Up(e, q, m) == 0;
      assert Up(e, y, m + 1) == 0;
    }
  }

  lemma {:induction false} UpAdd(d: Dom, y: Id, n: nat, m: nat)
    requires 0 !in d.nodes
    ensures Up(d, y, n + m) == Up(d, Up(d, y, n), m)
    decreases n
  {
    if y in d.nodes && n > 0 {
      UpAdd(d, d.nodes[y].parent, n - 1, m);
    }
  }

  /** An element that is its own proper ancestor never reaches the top. */
  lemma {:induction false} LoopNeverEnds(d: Dom, x: Id, n: nat, m: nat)
    requires 0 !in d.nodes && x in d.nodes && n > 0 && Up(d, x, n) == x
    ensures Up(d, x, m) != 0
    decreases m
  {
    if m < n {
      if Up(d, x, m) == 0 {
        UpAdd(d, x, m, n - m);
      }
    } else {
      LoopNeverEnds(d, x, n, m - n);
      UpAdd(d, x, n, m - n);
    }
  }

  /** Hanging the parentless `x` under `p` keeps the forest acyclic exactly when
      `p` does not lie at or below `x`. */
  lemma {:induction false} ReparentAcyclic(d: Dom, e: Dom, x: Id, p: Id)
    requires Reparented(d, e, x, p) && Acyclic(d)
    ensures Acyclic(e) <==> !AtOrAbove(d, x, p)
  {
    if AtOrAbove(d, x, p) {
      ChainToLoop(d, e, x, p);
      assert !Rooted(e, x);
    } else {
      assert Rooted(d, p);
      var n: nat :| Up(d, p, n) == 0;
      UpMissing(d, e, x, p, p, n);
      assert Up(e, x, n + 1) == 0;
      forall y | y in e.nodes
        ensures Rooted(e, y)
      {
        assert Rooted(d, y);
        var m: nat :| Up(d, y, m) == 0;
        RootedBelow(d, e, x, p, y, m);
      }
    }
  }

  lemma {:induction false} ChainToLoop(d: Dom, e: Dom, x: Id, p: Id)
    requires Reparented(d, e, x, p) && AtOrAbove(d, x, p)
    ensures !Rooted(e, x)
  {
    var n: nat :| Up(d, p, n) == x;
    var m := FirstHit(d, e, x, p, n);
    assert Up(e, x, m + 1) == x;
    forall k: nat
      ensures Up(e, x, k) != 0
    {
      LoopNeverEnds(e, x, m + 1, k);
    }
  }

  /** If `y` reaches `x` before, it still does after. */
  lemma {:induction false} FirstHit(d: Dom, e: Dom, x: Id, y: Id, n: nat) returns (m: nat)
    requires AgreeExcept(d, e, x) && Up(d, y, n) == x
    ensures Up(e, y, m) == x
    decreases n
  {
    if y == x {
      m := 0;
    } else {
      m := FirstHit(d, e, x, d.nodes[y].parent, n - 1);
      m := m + 1;
    }
  }

  lemma {:induction false} AboveUnchanged(d: Dom, e: Dom, x: Id, y: Id)
    requires AgreeExcept(d, e, x)
    ensures AtOrAbove(d, x, y) <==> AtOrAbove(e, x, y)
  {
    if AtOrAbove(d, x, y) {
      var n: nat :| Up(d, y, n) == x;
      var m := FirstHit(d, e, x, y, n);
    }
    if AtOrAbove(e, x, y) {
      var n: nat :| Up(e, y, n) == x;
      var m := FirstHit(e, d, x, y, n);
    }
  }

  lemma {:induction false} RemoveAgrees(d: Dom, x: Id)
    requires Linked(d) && x in d.nodes
    ensures AgreeExcept(d, Remove(d, x), x)
    ensures Remove(d, x).nodes[x].parent == 0
  {
    assert NodeLinked(d, x);
  }

  lemma {:induction false} RemoveRooted(d: Dom, x: Id, y: Id, n: nat)
    requires Linked(d) && x in d.nodes && Up(d, y, n) == 0
    ensures Rooted(Remove(d, x), y)
    decreases n
  {
    var e := Remove(d, x);
    RemoveAgrees(d, x);
    if y !in d.nodes {
      assert Up(e, y, 0) == 0;
    } else if y == x {
      assert Up(e, 0, 0) == 0;
      assert Up(e, x, 1) == 0;
    } else {
      if n == 0 { assert false; }
      var q := d.nodes[y].parent;
      RemoveRooted(d, x, q, n - 1);
      var m: nat :| Up(e, q, m) == 0;
      assert Up(e, y, m + 1) == 0;
    }
  }

  /** Removal never creates a cycle. */
  lemma {:induction false} RemoveAcyclic(d: Dom, x: Id)
    requires Linked(d) && x in d.nodes && Acyclic(d)
    ensures Acyclic(Remove(d, x))
  {
    forall y | y in Remove(d, x).nodes
      ensures Rooted(Remove(d, x), y)
    {
      assert Rooted(d, y);
      var n: nat :| Up(d, y, n) == 0;
      RemoveRooted(d, x, y, n);
    }
  }

  /** There is no cycle guard in the source: appending keeps the forest acyclic exactly
      when the moved element is neither the target nor above it. */
  lemma {:induction false} AppendAcyclic(d: Dom, t: Id, x: Id)
    requires Linked(d) && Acyclic(d) && t in d.nodes && x in d.nodes
    ensures Acyclic(Append(d, t, x)) <==> !AtOrAbove(d, x, t)
  {
    var e := Remove(d, x);
    RemoveAgrees(d, x);
    RemoveAcyclic(d, x);
    AboveUnchanged(d, e, x, t);
    ReparentAcyclic(e, Append(d, t, x), x, t);
  }

  /** `x` lies strictly above `t`. */
  ghost predicate Above(d: Dom, x: Id, t: Id)
    requires t in d.nodes
  {
    x != 0 && AtOrAbove(d, x, d.nodes[t].parent)
  }

  lemma {:induction false} BeforeAcyclic(d: Dom, t: Id, x: Id)
    requires Linked(d) && Acyclic(d) && t in d.nodes && x in d.nodes
    ensures Acyclic(Before(d, t, x)) <==> !Above(d, x, t)
  {
    MoveBesideAcyclic(d, Before(d, t, x), t, x);
  }

  lemma {:induction false} AfterAcyclic(d: Dom, t: Id, x: Id)
    requires Linked(d) && Acyclic(d) && t in d.nodes && x in d.nodes
    ensures Acyclic(After(d, t, x)) <==> !Above(d, x, t)
  {
    MoveBesideAcyclic(d, After(d, t, x), t, x);
  }

  /** No element can be put into itself or into its child, and nothing stops the attempt. */
  lemma MovesThatCycle(d: Dom, x: Id, t: Id)
    requires Linked(d) && Acyclic(d) && x in d.nodes && t in d.nodes && d.nodes[t].parent == x
    ensures !Acyclic(Append(d, x, x)) && !Acyclic(Append(d, t, x))
    ensures !Acyclic(Before(d, t, x)) && !Acyclic(After(d, t, x))
  {
    assert Up(d, x, 0) == x == Up(d, t, 1);
    AppendAcyclic(d, x, x);
    AppendAcyclic(d, t, x);
    BeforeAcyclic(d, t, x);
    AfterAcyclic(d, t, x);
  }

  lemma {:induction false} MoveBesideAcyclic(d: Dom, f: Dom, t: Id, x: Id)
    requires Linked(d) && Acyclic(d) && t in d.nodes && x in d.nodes
    requires
      var e := Remove(d, x);
      if e.nodes[t].parent == 0 then f == e else Reparented(e, f, x, e.nodes[t].parent)
    ensures Acyclic(f) <==> !Above(d, x, t)
  {
    var e := Remove(d, x);
    RemoveAgrees(d, x);
    RemoveAcyclic(d, x);
    var p := d.nodes[t].parent;
    if t == x {
      NotAboveItself(d, x);
    } else if p == 0 {
      assert NodeLinked(d, x);
      forall n: nat
        ensures Up(d, 0, n) != x
      {
      }
    } else {
      AboveUnchanged(d, e, x, p);
      ReparentAcyclic(e, f, x, p);
    }
  }

  lemma {:induction false} NotAboveItself(d: Dom, x: Id)
    requires Linked(d) && Acyclic(d) && x in d.nodes
    ensures !Above(d, x, x)
  {
    if Above(d, x, x) {
      var n: nat :| Up(d, d.nodes[x].parent, n) == x;
      assert Up(d, x, n + 1) == x;
      assert Rooted(d, x);
      var m: nat :| Up(d, x, m) == 0;
      LoopNeverEnds(d, x, n + 1, m);
    }
  }
}
