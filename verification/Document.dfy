/** Elements and documents as linked objects, updated in place.  Every method is specified by
    the value-level functions of DomModel and Replication applied to `State()`. */
module Documents {
  import opened DomModel
  import opened Replication
  import opened Siblings

  /** The id by which the model names an element reference; null is 0. */
  function IdOf(e: Element?): Id {
    if e == null then 0 else e.elementId
  }

  function Ids(s: seq<Element>): (r: seq<Id>)
    ensures |r| == |s| && forall i :: 0 <= i < |s| ==> r[i] == s[i].elementId
  {
    seq(|s|, i requires 0 <= i < |s| => s[i].elementId)
  }

  function IdLists(lists: map<string, seq<Element>>): map<string, seq<Id>> {
    map name | name in lists :: Ids(lists[name])
  }

  lemma RegisteredName(lists: map<string, seq<Element>>, name: string, e: Element)
    ensures
      var same := if name in lists then lists[name] else [];
      IdLists(lists[name := same + [e]]) == IdLists(lists)[name := Ids(same) + [e.elementId]]
  {
    var same := if name in lists then lists[name] else [];
    assert Ids(same + [e]) == Ids(same) + [e.elementId];
  }

  /** A recorder that is switched off ignores commands. */
  function Recorded(archiver: Option<seq<Command>>, log: seq<Command>): Option<seq<Command>> {
    if archiver.None? || log == [] then archiver else Some(archiver.value + log)
  }

  lemma RecordedTwice(archiver: Option<seq<Command>>, a: seq<Command>, b: seq<Command>)
    ensures Recorded(Recorded(archiver, a), b) == Recorded(archiver, a + b)
  {
    if archiver.Some? {
      assert archiver.value + a + b == archiver.value + (a + b);
      assert a + [] == a && [] + b == b;
    }
  }

  /** The sibling graph that the references of the elements form. */
  ghost function GraphOf(elements: map<Id, Element>): Graph
    reads elements.Values
  {
    map id | id in elements :: elements[id].Links()
  }

  ghost function NodesOf(elements: map<Id, Element>): map<Id, Node>
    reads elements.Values
  {
    map id | id in elements :: elements[id].Node()
  }

  /** `e` is null or the element known by `e`'s id. */
  ghost predicate Known(elements: map<Id, Element>, e: Element?) {
    e != null ==> e.elementId in elements && elements[e.elementId] == e
  }

  /** The references of element `id` stay among the known elements. */
  ghost predicate ClosedAt(elements: map<Id, Element>, id: Id)
    requires id in elements
    reads elements[id]
  {
    var e := elements[id];
    && e.elementId == id
    && Known(elements, e.firstChild) && Known(elements, e.lastChild)
    && Known(elements, e.nextSibling) && Known(elements, e.prevSibling)
    && Known(elements, e.parent)
  }

  ghost predicate Closed(elements: map<Id, Element>)
    reads elements.Values
  {
    0 !in elements && forall id {:trigger ClosedAt(elements, id)} :: id in elements ==> ClosedAt(elements, id)
  }

  class Element {
    const document: Document
    const elementId: Id
    const name: string
    var firstChild: Element?
    var lastChild: Element?
    var nextSibling: Element?
    var prevSibling: Element?
    var parent: Element?
    var attributes: map<string, string>
    /** The ids of the children from first to last, which the sibling chain represents. */
    ghost var kids: seq<Id>

    constructor (document: Document, name: string, elementId: Id)
      ensures this.document == document && this.name == name && this.elementId == elementId
      ensures firstChild == null && lastChild == null && nextSibling == null && prevSibling == null
      ensures parent == null && attributes == map[] && kids == []
    {
      this.document := document;
      this.name := name;
      this.elementId := elementId;
      firstChild, lastChild, nextSibling, prevSibling, parent := null, null, null, null, null;
      attributes := map[];
      kids := [];
    }

    ghost function Links(): Links
      reads this
    {
      Siblings.Links.Links(
        IdOf(firstChild), IdOf(lastChild), IdOf(nextSibling), IdOf(prevSibling), IdOf(parent), kids)
    }

    ghost function Node(): Node
      reads this
    {
      DomModel.Node.Node(name, IdOf(parent), kids, attributes)
    }

    /** The pointer assignments of a removal: neighbours and parent skip `this`. */
    method Unlink(ghost all: set<Element>)
      requires parent != null && this in all && parent in all
      requires prevSibling != null ==> prevSibling in all
      requires nextSibling != null ==> nextSibling in all
      modifies all
      ensures forall e :: e in all ==> Unlinked(this, e)
    {
      var prev, next, up := prevSibling, nextSibling, parent;
      if prev != null {
        prev.nextSibling := next;
        if next != null {
          next.prevSibling := prev;
        } else {
          up.lastChild := prev;
        }
      } else {
        up.firstChild := next;
        if next != null {
          next.prevSibling := null;
        } else {
          up.lastChild := null;
        }
      }
      parent, prevSibling, nextSibling := null, null, null;
      up.kids := Without(up.kids, elementId);
      forall e | e in all
        ensures Unlinked(this, e)
      {
      }
    }

    /** `Unlink`, as an operation of the document. */
    method Detach()
      requires document.Valid() && document.Has(this) && parent != null
      modifies document.elements.Values
      ensures document.Valid()
      ensures parent == null && prevSibling == null && nextSibling == null
      ensures document.State() == DomModel.Remove(old(document.State()), elementId)
    {
      ghost var d := document.State();
      assert ClosedAt(document.elements, elementId);
      Unlink(document.elements.Values);
      UnlinkGraph(this);
      UnlinkNodes(d, this);
    }

    method Remove()
      requires document.Valid() && document.Has(this)
      modifies document`archiver, document.elements.Values
      ensures document.Valid()
      ensures parent == null && prevSibling == null && nextSibling == null
      ensures document.State() == DomModel.Remove(old(document.State()), elementId)
      ensures document.archiver == Recorded(old(document.archiver), RemoveLog(old(document.State()), elementId))
    {
      assert ClosedAt(document.elements, elementId) && Chained(GraphOf(document.elements), elementId);
      if parent != null {
        Detach();
        document.ExecCommand(RemoveElement(elementId));
      }
    }

    /** The pointer assignments of `Append`. */
    method LinkLast(element: Element, ghost all: set<Element>)
      requires this in all && element in all && (lastChild != null ==> lastChild in all)
      requires element.nextSibling == null && element.prevSibling == null && element != lastChild
      modifies all
      ensures forall e :: e in all ==> Inserted(this, old(lastChild), null, |old(kids)|, element, e)
    {
      var last := lastChild;
      if last != null {
        last.nextSibling := element;
        element.prevSibling := last;
        lastChild := element;
        element.parent := this;
      } else {
        firstChild, lastChild := element, element;
        element.parent := this;
      }
      kids := InsertAt(kids, |kids|, element.elementId);
    }

    /** `LinkLast`, as an operation of the document. */
    method AttachLast(element: Element)
      requires document.Valid() && document.Has(this) && element.document == document && document.Has(element)
      requires element.parent == null && element.prevSibling == null && element.nextSibling == null
      modifies document.elements.Values
      ensures document.Valid()
      ensures
        var d := old(document.State());
        document.State() == Link(d, elementId, element.elementId, d.nodes[elementId].kids + [element.elementId])
    {
      hide AllChained, ClosedAt;
      ghost var d, last := document.State(), lastChild;
      LastKid(document, this);
      LinkLast(element, document.elements.Values);
      HookForest(d, this, last, null, |old(kids)|, element);
      InsertLast(old(kids), element.elementId);
    }

    method Append(element: Element?)
      requires document.Valid() && document.Has(this)
      requires element != null ==> element.document == document && document.Has(element)
      modifies document`archiver, document.elements.Values
      ensures document.Valid()
      ensures element == null ==> unchanged(document) && unchanged(document.elements.Values)
      ensures element != null ==>
        document.State() == DomModel.Append(old(document.State()), elementId, element.elementId)
      ensures element != null ==>
        document.archiver
          == Recorded(old(document.archiver), AppendLog(old(document.State()), elementId, element.elementId))
    {
      if element == null { return; }
      ghost var d := document.State();
      element.Remove();
      AttachLast(element);
      document.ExecCommand(AppendTo(elementId, element.elementId));
      RecordedTwice(old(document.archiver), RemoveLog(d, element.elementId), [AppendTo(elementId, element.elementId)]);
    }

    /** The pointer assignments of `Before`. */
    method LinkBefore(element: Element, ghost k: nat, ghost all: set<Element>)
      requires this in all && element in all && parent != null && parent in all
      requires prevSibling != null ==> prevSibling in all
      requires element != this && element != prevSibling && element.prevSibling == null && k <= |parent.kids|
      modifies all
      ensures forall e :: e in all ==> Inserted(old(parent), old(prevSibling), this, k, element, e)
    {
      var prev, up := prevSibling, parent;
      if prev != null {
        prev.nextSibling := element;
        element.prevSibling := prev;
        element.nextSibling := this;
        element.parent := up;
        prevSibling := element;
      } else {
        element.nextSibling := this;
        element.parent := up;
        prevSibling := element;
        up.firstChild := element;
      }
      up.kids := InsertAt(up.kids, k, element.elementId);
    }

    /** `LinkBefore`, as an operation of the document. */
    method AttachBefore(element: Element)
      requires document.Valid() && document.Has(this) && element.document == document && document.Has(element)
      requires element.parent == null && element.prevSibling == null && element.nextSibling == null
      requires parent != null
      modifies document.elements.Values
      ensures document.Valid()
      ensures
        var d := old(document.State());
        var p := d.nodes[elementId].parent;
        && p in d.nodes && elementId in d.nodes[p].kids
        && document.State()
             == Link(d, p, element.elementId, InsertBefore(d.nodes[p].kids, elementId, element.elementId))
    {
      hide AllChained, ClosedAt;
      ghost var d, p, prev := document.State(), parent, prevSibling;
      ghost var k := KidAt(document, this);
      LinkBefore(element, k, document.elements.Values);
      HookForest(d, p, prev, this, k, element);
      InsertBeforeIs(old(p.kids), k, element.elementId);
    }

    method Before(element: Element?)
      requires document.Valid() && document.Has(this)
      requires element != null ==> element.document == document && document.Has(element)
      modifies document`archiver, document.elements.Values
      ensures document.Valid()
      ensures element == null ==> unchanged(document) && unchanged(document.elements.Values)
      ensures element != null ==>
        document.State() == DomModel.Before(old(document.State()), elementId, element.elementId)
      ensures element != null ==>
        document.archiver
          == Recorded(old(document.archiver), BeforeLog(old(document.State()), elementId, element.elementId))
    {
      if element != null {
        MoveBefore(element);
      }
    }

    /** `Before` of an element that is there: it is removed first, which may take the parent of this one away. */
    method MoveBefore(element: Element)
      requires document.Valid() && document.Has(this) && element.document == document && document.Has(element)
      modifies document`archiver, document.elements.Values
      ensures document.Valid()
      ensures document.State() == DomModel.Before(old(document.State()), elementId, element.elementId)
      ensures document.archiver
        == Recorded(old(document.archiver), BeforeLog(old(document.State()), elementId, element.elementId))
    {
      hide Document.Valid, Document.State, Known;
      ghost var d := document.State();
      HasNode(document, this);
      HasNode(document, element);
      element.Remove();
      ParentKept(document, d, this, element);
      assert RemoveLog(d, element.elementId) + [] == RemoveLog(d, element.elementId);
      if parent != null {
        AttachBefore(element);
        document.ExecCommand(BeforeOf(elementId, element.elementId));
        RecordedTwice(old(document.archiver), RemoveLog(d, element.elementId), [BeforeOf(elementId, element.elementId)]);
      }
    }

    /** The pointer assignments of `After`. */
    method LinkAfter(element: Element, ghost k: nat, ghost all: set<Element>)
      requires this in all && element in all && parent != null && parent in all
      requires nextSibling != null ==> nextSibling in all
      requires element != this && element != nextSibling && element.nextSibling == null && k <= |parent.kids|
      modifies all
      ensures forall e :: e in all ==> Inserted(old(parent), this, old(nextSibling), k, element, e)
    {
      var next, up := nextSibling, parent;
      if next != null {
        next.prevSibling := element;
        element.nextSibling := next;
        element.prevSibling := this;
        element.parent := up;
        nextSibling := element;
      } else {
        element.prevSibling := this;
        element.parent := up;
        nextSibling := element;
        up.lastChild := element;
      }
      up.kids := InsertAt(up.kids, k, element.elementId);
    }

    /** `LinkAfter`, as an operation of the document. */
    method AttachAfter(element: Element)
      requires document.Valid() && document.Has(this) && element.document == document && document.Has(element)
      requires element.parent == null && element.prevSibling == null && element.nextSibling == null
      requires parent != null
      modifies document.elements.Values
      ensures document.Valid()
      ensures
        var d := old(document.State());
        var p := d.nodes[elementId].parent;
        && p in d.nodes && elementId in d.nodes[p].kids
        && document.State()
             == Link(d, p, element.elementId, InsertAfter(d.nodes[p].kids, elementId, element.elementId))
    {
      hide AllChained, ClosedAt, Document.Valid, Document.State, KidBefore, KidFrom;
      ghost var d, p, next := document.State(), parent, nextSibling;
      ghost var k := KidAt(document, this);
      LinkAfter(element, k + 1, document.elements.Values);
      HookForest(d, p, this, next, k + 1, element);
      InsertAfterIs(old(p.kids), k, element.elementId);
    }

    method After(element: Element?)
      requires document.Valid() && document.Has(this)
      requires element != null ==> element.document == document && document.Has(element)
      modifies document`archiver, document.elements.Values
      ensures document.Valid()
      ensures element == null ==> unchanged(document) && unchanged(document.elements.Values)
      ensures element != null ==>
        document.State() == DomModel.After(old(document.State()), elementId, element.elementId)
      ensures element != null ==>
        document.archiver
          == Recorded(old(document.archiver), AfterLog(old(document.State()), elementId, element.elementId))
    {
      if element != null {
        MoveAfter(element);
      }
    }

    /** `After` of an element that is there: it is removed first, which may take the parent of this one away. */
    method MoveAfter(element: Element)
      requires document.Valid() && document.Has(this) && element.document == document && document.Has(element)
      modifies document`archiver, document.elements.Values
      ensures document.Valid()
      ensures document.State() == DomModel.After(old(document.State()), elementId, element.elementId)
      ensures document.archiver
        == Recorded(old(document.archiver), AfterLog(old(document.State()), elementId, element.elementId))
    {
      hide Document.Valid, Document.State, Known;
      ghost var d := document.State();
      HasNode(document, this);
      HasNode(document, element);
      element.Remove();
      ParentKept(document, d, this, element);
      assert RemoveLog(d, element.elementId) + [] == RemoveLog(d, element.elementId);
      if parent != null {
        AttachAfter(element);
        document.ExecCommand(AfterOf(elementId, element.elementId));
        RecordedTwice(old(document.archiver), RemoveLog(d, element.elementId), [AfterOf(elementId, element.elementId)]);
      }
    }

    /** Attribute `key` has the given value now, or none; the other attributes are as they were. */
    twostate predicate Stored(key: string, value: Option<string>)
      reads this
    {
      && (if value.Some? then key in attributes && attributes[key] == value.value else key !in attributes)
      && (forall k :: k != key ==>
            && (k in attributes <==> k in old(attributes))
            && (k in attributes ==> attributes[k] == old(attributes[k])))
    }

    /** Assigns or (without a value) erases an attribute. */
    method Set(key: string, value: Option<string>)
      requires document.Valid() && document.Has(this)
      modifies document`archiver, document`autoKey, document`keys, document`elementKeys, this`attributes
      ensures document.Valid()
      ensures document.State() == SetAttr(old(document.State()), elementId, key, value)
      ensures document.archiver
        == Recorded(old(document.archiver), AttrLog(old(document.State()), elementId, key, value))
      ensures Stored(key, value)
    {
      hide Document.Valid, Document.State, Known, Replication.Assign;
      ghost var d := document.State();
      HasNode(document, this);
      Assign(key, value);
      ghost var e := document.State();
      var k := document.ElementKey(key);
      document.ExecCommand(SetAttribute(elementId, k, if value.None? then "" else value.value));
      RecordedTwice(old(document.archiver), KeyLog(e, key),
                    [SetAttribute(elementId, k, if value.None? then "" else value.value)]);
    }

    method Assign(key: string, value: Option<string>)
      requires document.Valid() && document.Has(this)
      modifies this`attributes
      ensures document.Valid()
      ensures
        var d := old(document.State());
        document.State() == WithAttrs(d, elementId, Replication.Assign(d.nodes[elementId].attrs, key, value))
      ensures Stored(key, value)
    {
      hide AllChained, ClosedAt;
      ghost var d := document.State();
      if value.None? {
        attributes := attributes - {key};
      } else {
        attributes := attributes[key := value.value];
      }
      AssignedGraph(this);
      AssignedNodes(this);
    }
  }

  /** Where `x` stands among its siblings. */
  lemma KidAt(document: Document, x: Element) returns (k: nat)
    requires document.Valid() && document.Has(x) && x.parent != null
    ensures document.Has(x.parent) && k < |x.parent.kids| && x.parent.kids[k] == x.elementId
    ensures DomModel.Distinct(x.parent.kids)
    ensures
      var nodes := document.State().nodes;
      && x.elementId in nodes && nodes[x.elementId].parent == x.parent.elementId
      && x.parent.elementId in nodes && nodes[x.parent.elementId].kids == x.parent.kids
    ensures Known(document.elements, x.prevSibling) && Known(document.elements, x.nextSibling)
    ensures IdOf(x.prevSibling) == KidBefore(x.parent.kids, k)
    ensures IdOf(x.nextSibling) == KidFrom(x.parent.kids, k + 1)
    ensures KidBefore(x.parent.kids, k + 1) == x.elementId == KidFrom(x.parent.kids, k)
    ensures x.prevSibling != null ==> x.prevSibling.parent == x.parent
    ensures x.nextSibling != null ==> x.nextSibling.parent == x.parent
  {
    var g := GraphOf(document.elements);
    assert ClosedAt(document.elements, x.elementId);
    k := PlaceOf(g, x.elementId);
    Neighbours(g, x.elementId, k);
    if x.prevSibling != null { assert ClosedAt(document.elements, x.prevSibling.elementId); }
    if x.nextSibling != null { assert ClosedAt(document.elements, x.nextSibling.elementId); }
  }

  /** A new element enters a document without a link to any other. */
  lemma LoneEntered(elements: map<Id, Element>, e: Element)
    requires Closed(elements) && AllChained(GraphOf(elements))
    requires e.elementId != 0 && e.elementId !in elements
    requires e.Links() == Siblings.Links.Links(0, 0, 0, 0, 0, [])
    requires e.firstChild == null && e.lastChild == null && e.nextSibling == null && e.prevSibling == null
    requires e.parent == null
    ensures
      var more := elements[e.elementId := e];
      && Closed(more)
      && NodesOf(more) == NodesOf(elements)[e.elementId := e.Node()]
      && AllChained(GraphOf(more))
  {
    var more := elements[e.elementId := e];
    LoneChained(GraphOf(elements), e.elementId);
    forall y | y in more
      ensures ClosedAt(more, y)
    {
      if y != e.elementId { assert ClosedAt(elements, y); }
    }
    assert GraphOf(more) == GraphOf(elements)[e.elementId := e.Links()];
    assert NodesOf(more) == NodesOf(elements)[e.elementId := e.Node()];
  }

  lemma HasNode(document: Document, e: Element)
    requires document.Valid() && document.Has(e)
    ensures 0 !in document.State().nodes && e.elementId in document.State().nodes
  {
  }

  /** After `x` has been removed, `t` has a parent exactly when it is another element that
      had one. */
  lemma ParentKept(document: Document, d: Dom, t: Element, x: Element)
    requires document.Valid() && document.Has(t) && x.elementId in d.nodes && t.elementId in d.nodes
    requires document.Has(x) && document.State() == DomModel.Remove(d, x.elementId) && x.parent == null
    requires 0 !in d.nodes
    ensures IdOf(t.parent) == document.State().nodes[t.elementId].parent
    ensures t.parent != null ==> document.Has(t.parent) && t.parent.elementId in document.State().nodes
    ensures t.parent != null <==> t != x && d.nodes[t.elementId].parent != 0
  {
    assert ClosedAt(document.elements, t.elementId);
    assert document.State().nodes[t.elementId] == t.Node();
    if t == x {
      assert document.State().nodes[x.elementId] == x.Node();
    }
  }

  lemma LastKid(document: Document, p: Element)
    requires document.Valid() && document.Has(p)
    ensures p.lastChild == null <==> p.kids == []
    ensures p.lastChild != null ==>
      document.Has(p.lastChild) && p.lastChild.parent == p && p.lastChild.elementId == p.kids[|p.kids| - 1]
  {
    var g := GraphOf(document.elements);
    assert Chained(g, p.elementId) && ClosedAt(document.elements, p.elementId);
    if p.kids != [] {
      assert KidChained(g, p.elementId, |p.kids| - 1);
      assert ClosedAt(document.elements, p.lastChild.elementId);
    }
  }

  /** The document of `x` has just had the attributes of `x` assigned, and nothing else has changed in it. */
  twostate predicate JustAssigned(x: Element)
    reads x.document, x.document.elements.Values
  {
    var elements := x.document.elements;
    && old(x.document.elements) == elements
    && old(x.document.Valid() && x.document.Has(x))
    && forall e :: e in elements.Values ==> AssignedAt(x, e)
  }

  twostate predicate AssignedAt(x: Element, e: Element)
    reads e
  {
    && e.parent == old(e.parent) && e.nextSibling == old(e.nextSibling) && e.prevSibling == old(e.prevSibling)
    && e.firstChild == old(e.firstChild) && e.lastChild == old(e.lastChild) && e.kids == old(e.kids)
    && (e == x || e.attributes == old(e.attributes))
  }

  twostate lemma AssignedGraph(x: Element)
    requires JustAssigned(x)
    ensures GraphOf(x.document.elements) == old(GraphOf(x.document.elements))
    ensures Closed(x.document.elements)
  {
    hide AllChained;
    var elements, g := x.document.elements, old(GraphOf(x.document.elements));
    var after := GraphOf(elements);
    forall y | y in elements
      ensures ClosedAt(elements, y) && after[y] == g[y]
    {
      assert AssignedAt(x, elements[y]) && old(ClosedAt(elements, y));
    }
    assert after.Keys == elements.Keys;
    assert g.Keys == elements.Keys;
    assert forall y :: y in elements ==> after[y] == g[y];
    assert after == g;
  }

  twostate lemma AssignedNodes(x: Element)
    requires JustAssigned(x)
    ensures NodesOf(x.document.elements) == old(NodesOf(x.document.elements))[x.elementId := x.Node()]
  {
    hide AllChained;
    var elements := x.document.elements;
    forall y | y in elements
      ensures elements[y].Node() == if y == x.elementId then x.Node() else old(elements[y].Node())
    {
      assert AssignedAt(x, elements[y]) && old(ClosedAt(elements, y));
    }
  }

  /** `e` as it must be once `x` has been unlinked. */
  twostate predicate Unlinked(x: Element, e: Element)
    reads e
  {
    && e.parent == (if e == x then null else old(e.parent))
    && e.nextSibling == (if e == x then null else if e == old(x.prevSibling) then old(x.nextSibling) else old(e.nextSibling))
    && e.prevSibling == (if e == x then null else if e == old(x.nextSibling) then old(x.prevSibling) else old(e.prevSibling))
    && e.firstChild == (if e == old(x.parent) && old(x.prevSibling) == null then old(x.nextSibling) else old(e.firstChild))
    && e.lastChild == (if e == old(x.parent) && old(x.nextSibling) == null then old(x.prevSibling) else old(e.lastChild))
    && e.kids == (if e == old(x.parent) then Without(old(e.kids), x.elementId) else old(e.kids))
    && e.attributes == old(e.attributes)
  }

  twostate lemma UnlinkLinks(new h: Graph, x: Element, new y: Id)
    requires old(x.document.elements) == x.document.elements
    requires old(Closed(x.document.elements))
    requires Unhooked(old(GraphOf(x.document.elements)), h, x.elementId)
    requires x.document.Has(x) && old(x.parent) != null && y in x.document.elements
    requires Unlinked(x, x.document.elements[y])
    ensures x.document.elements[y].Links() == h[y]
    ensures ClosedAt(x.document.elements, y)
  {
    var elements := x.document.elements;
    var g := old(GraphOf(elements));
    assert old(ClosedAt(elements, x.elementId)) && old(ClosedAt(elements, y));
    assert UnhookedAt(g, h, x.elementId, y);
    var prev, next := old(x.prevSibling), old(x.nextSibling);
    if prev != null { assert old(ClosedAt(elements, prev.elementId)); }
    if next != null { assert old(ClosedAt(elements, next.elementId)); }
  }

  /** The document of `x` has just had `x` unlinked, and nothing else has changed in it. */
  twostate predicate JustUnlinked(x: Element)
    reads x.document, x.document.elements.Values
  {
    var elements := x.document.elements;
    && old(x.document.elements) == elements
    && old(x.document.Valid() && x.document.Has(x)) && old(x.parent) != null
    && forall e :: e in elements.Values ==> Unlinked(x, e)
  }

  twostate lemma UnlinkGraph(x: Element)
    requires JustUnlinked(x)
    ensures GraphOf(x.document.elements) == Unhook(old(GraphOf(x.document.elements)), x.elementId)
    ensures Closed(x.document.elements) && AllChained(GraphOf(x.document.elements))
  {
    hide AllChained;
    var elements, g, id := x.document.elements, old(GraphOf(x.document.elements)), x.elementId;
    assert old(ClosedAt(elements, id));
    var h := Unhook(g, id);
    UnhookFields(g, id);
    UnhookChained(g, id);
    forall y | y in elements
      ensures elements[y].Links() == h[y] && ClosedAt(elements, y)
    {
      UnlinkLinks(h, x, y);
    }
    assert g.Keys == elements.Keys;
    var after := GraphOf(elements);
    assert after.Keys == elements.Keys;
    assert forall y :: y in elements ==> after[y] == h[y];
    assert after == h;
  }

  twostate lemma UnlinkNodes(new d: Dom, x: Element)
    requires JustUnlinked(x)
    requires d == old(x.document.State())
    ensures x.elementId in d.nodes
    ensures NodesOf(x.document.elements) == DomModel.Remove(d, x.elementId).nodes
  {
    hide AllChained;
    var elements, id := x.document.elements, x.elementId;
    assert old(ClosedAt(elements, id));
    forall y | y in elements
      ensures elements[y].Node() == DomModel.Remove(d, id).nodes[y]
    {
      assert old(ClosedAt(elements, y));
      assert Unlinked(x, elements[y]);
    }
  }

  // ---------------------------------------------------------------- insertion

  /** `e` as it must be once `x` has been hooked in under `p` between `prev` and `next`. */
  twostate predicate Inserted(new p: Element, new prev: Element?, new next: Element?, new k: nat, x: Element, e: Element)
    reads e
  {
    && e.parent == (if e == x then p else old(e.parent))
    && e.nextSibling == (if e == x then next else if e == prev then x else old(e.nextSibling))
    && e.prevSibling == (if e == x then prev else if e == next then x else old(e.prevSibling))
    && e.firstChild == (if e == p && prev == null then x else old(e.firstChild))
    && e.lastChild == (if e == p && next == null then x else old(e.lastChild))
    && (if e == p then k <= |old(e.kids)| && e.kids == InsertAt(old(e.kids), k, x.elementId)
        else e.kids == old(e.kids))
    && e.attributes == old(e.attributes)
  }

  /** The document of `x` has just had the parentless `x` hooked in at index `k` of `p`'s
      children, and nothing else has changed in it. */
  twostate predicate JustInserted(new p: Element, new prev: Element?, new next: Element?, new k: nat, x: Element)
    reads x.document, x.document.elements.Values
  {
    var elements := x.document.elements;
    && old(x.document.elements) == elements
    && old(x.document.Valid() && x.document.Has(x)) && old(x.parent) == null
    && Known(elements, p) && Known(elements, prev) && Known(elements, next)
    && (var g := old(GraphOf(elements));
        && k <= |g[p.elementId].kids|
        && IdOf(prev) == KidBefore(g[p.elementId].kids, k)
        && IdOf(next) == KidFrom(g[p.elementId].kids, k))
    && forall e :: e in elements.Values ==> Inserted(p, prev, next, k, x, e)
  }

  twostate lemma HookLinks(new h: Graph, new p: Element, new prev: Element?, new next: Element?, new k: nat, x: Element, new y: Id)
    requires JustInserted(p, prev, next, k, x) && y in x.document.elements
    requires Hooked(old(GraphOf(x.document.elements)), h, p.elementId, x.elementId, k)
    ensures x.document.elements[y].Links() == h[y]
    ensures ClosedAt(x.document.elements, y)
  {
    var elements := x.document.elements;
    var g := old(GraphOf(elements));
    assert old(ClosedAt(elements, y));
    assert HookedAt(g, h, p.elementId, x.elementId, k, y);
    assert Inserted(p, prev, next, k, x, elements[y]);
    assert old(ClosedAt(elements, p.elementId));
    if prev != null { assert old(ClosedAt(elements, prev.elementId)); }
    if next != null { assert old(ClosedAt(elements, next.elementId)); }
  }

  twostate lemma HookGraph(new p: Element, new prev: Element?, new next: Element?, new k: nat, x: Element)
    requires JustInserted(p, prev, next, k, x)
    ensures Closed(x.document.elements) && AllChained(GraphOf(x.document.elements))
  {
    hide AllChained, ClosedAt, Inserted, KidBefore, KidFrom;
    var elements, g := x.document.elements, old(GraphOf(x.document.elements));
    var s := g[p.elementId].kids;
    var h := Hook(g, p.elementId, x.elementId, KidBefore(s, k), KidFrom(s, k), InsertAt(s, k, x.elementId));
    HookFields(g, p.elementId, x.elementId, k);
    HookChained(g, h, p.elementId, x.elementId, k);
    forall y | y in elements
      ensures elements[y].Links() == h[y] && ClosedAt(elements, y)
    {
      HookLinks(h, p, prev, next, k, x, y);
    }
    var after := GraphOf(elements);
    assert after.Keys == elements.Keys == h.Keys;
    assert forall y :: y in elements ==> after[y] == h[y];
    assert after == h;
  }

  twostate lemma HookNodes(new d: Dom, new p: Element, new prev: Element?, new next: Element?, new k: nat, x: Element)
    requires JustInserted(p, prev, next, k, x)
    requires d == old(x.document.State())
    ensures x.elementId in d.nodes && p.elementId in d.nodes && k <= |d.nodes[p.elementId].kids|
    ensures NodesOf(x.document.elements)
      == Link(d, p.elementId, x.elementId, InsertAt(d.nodes[p.elementId].kids, k, x.elementId)).nodes
  {
    hide AllChained;
    var elements, e := x.document.elements,
      Link(d, p.elementId, x.elementId, InsertAt(d.nodes[p.elementId].kids, k, x.elementId));
    forall y | y in elements
      ensures elements[y].Node() == e.nodes[y]
    {
      assert old(ClosedAt(elements, y));
      assert Inserted(p, prev, next, k, x, elements[y]);
    }
  }

  /** The pointer assignments of an insertion have the effect the model describes. */
  twostate lemma HookForest(new d: Dom, new p: Element, new prev: Element?, new next: Element?, new k: nat, x: Element)
    requires JustInserted(p, prev, next, k, x) && unchanged(x.document)
    requires d == old(x.document.State())
    ensures x.document.Valid()
    ensures x.elementId in d.nodes && p.elementId in d.nodes && k <= |d.nodes[p.elementId].kids|
    ensures x.document.State()
      == Link(d, p.elementId, x.elementId, InsertAt(d.nodes[p.elementId].kids, k, x.elementId))
  {
    hide AllChained, ClosedAt;
    HookGraph(p, prev, next, k, x);
    HookNodes(d, p, prev, next, k, x);
  }

  /** What the elements are made of does not depend on the other fields of their document. */
  twostate lemma ElementsKept(document: Document)
    requires old(document.Valid()) && old(document.elements) == document.elements
    requires unchanged(document.elements.Values)
    ensures Closed(document.elements) && AllChained(GraphOf(document.elements))
    ensures NodesOf(document.elements) == old(NodesOf(document.elements))
  {
    hide AllChained, ClosedAt;
    assert GraphOf(document.elements) == old(GraphOf(document.elements));
  }

  class Document {
    var autoKey: int
    var elements: map<Id, Element>
    var elementsByName: map<string, seq<Element>>
    var rootElement: Element?
    var keys: map<string, Id>
    var elementKeys: map<Id, string>
    var archiver: Option<seq<Command>>

    constructor ()
      ensures Valid() && State() == EMPTY && archiver == None && elements == map[]
    {
      autoKey := 0;
      elements, elementsByName := map[], map[];
      rootElement := null;
      keys, elementKeys := map[], map[];
      archiver := None;
    }

    ghost predicate Has(e: Element)
      reads this
    {
      Known(elements, e)
    }

    ghost predicate Valid()
      reads this, elements.Values
    {
      && 0 <= autoKey
      && (forall id :: id in elements ==> 0 < id <= autoKey && elements[id].document == this)
      && Closed(elements)
      && AllChained(GraphOf(elements))
      && Known(elements, rootElement)
    }

    ghost function State(): Dom
      reads this, elements.Values
    {
      Dom(autoKey,
          NodesOf(elements),
          IdLists(elementsByName),
          IdOf(rootElement),
          keys,
          elementKeys)
    }

    method ExecCommand(command: Command)
      requires Valid()
      modifies `archiver
      ensures Valid() && State() == old(State())
      ensures archiver == Recorded(old(archiver), [command])
      ensures archiver == if old(archiver).None? then None else Some(old(archiver).value + [command])
    {
      if archiver.Some? {
        archiver := Some(archiver.value + [command]);
      }
    }

    method StartTransaction()
      requires Valid()
      modifies `archiver
      ensures Valid() && State() == old(State())
      ensures archiver == Some([])
    {
      archiver := Some([]);
    }

    /** Hands over what has been recorded, unless that is nothing, and switches the recorder off. */
    method CommitTransaction() returns (log: Option<seq<Command>>)
      requires Valid()
      modifies `archiver
      ensures Valid() && State() == old(State())
      ensures archiver == None
      ensures log == if old(archiver) == Some([]) then None else old(archiver)
    {
      log := None;
      if archiver.Some? {
        if archiver.value != [] {
          log := archiver;
        }
        archiver := None;
      }
    }

    method CreateElement(name: string, id: Id) returns (e: Element)
      requires Valid() && 0 <= id && id !in elements
      modifies this
      ensures Valid() && fresh(e) && e.document == this && Has(e)
      ensures elements == old(elements)[e.elementId := e]
      ensures e.elementId == if id == 0 then old(autoKey) + 1 else id
      ensures State() == Replication.CreateElement(old(State()), name, id)
      ensures archiver == Recorded(old(archiver), [Alloc(e.elementId, name)])
    {
      var elementId := Allot(id);
      e := Register(name, elementId);
      ListByName(e);
      ExecCommand(Alloc(elementId, name));
    }

    /** The id of a new element: the next one, or the one that a command brings along. */
    method Allot(id: Id) returns (elementId: Id)
      requires Valid() && 0 <= id && id !in elements
      modifies `autoKey
      ensures Valid() && 0 < elementId <= autoKey && elementId !in elements
      ensures elementId == if id == 0 then old(autoKey) + 1 else id
      ensures State() == old(State()).(autoKey := if id == 0 || id > old(autoKey) then elementId else old(autoKey))
    {
      hide AllChained;
      elementId := id;
      if elementId == 0 {
        autoKey := autoKey + 1;
        elementId := autoKey;
      } else if elementId > autoKey {
        autoKey := elementId;
      }
    }

    /** A new element, entered in the table of ids. */
    method Register(name: string, id: Id) returns (e: Element)
      requires Valid() && 0 < id <= autoKey && id !in elements
      modifies `elements
      ensures Valid() && fresh(e) && e.document == this && e.elementId == id && e.name == name
      ensures elements == old(elements)[id := e]
      ensures
        var d := old(State());
        State() == d.(nodes := d.nodes[id := DomModel.Node.Node(name, 0, [], map[])])
    {
      hide AllChained, ClosedAt, GraphOf, NodesOf;
      e := new Element(this, name, id);
      LoneEntered(elements, e);
      elements := elements[id := e];
    }

    /** `e` added to the elements of its name. */
    method ListByName(e: Element)
      requires Valid()
      modifies `elementsByName
      ensures Valid()
      ensures
        var d := old(State());
        var same := if e.name in d.byName then d.byName[e.name] else [];
        State() == d.(byName := d.byName[e.name := same + [e.elementId]])
    {
      hide AllChained, ClosedAt, GraphOf, NodesOf;
      if e.name !in elementsByName {
        elementsByName := elementsByName[e.name := []];
      }
      elementsByName := elementsByName[e.name := elementsByName[e.name] + [e]];
      RegisteredName(old(elementsByName), e.name, e);
      ElementsKept(this);
    }

    /** The number of an attribute name, which is given out on first use. */
    method ElementKey(name: string) returns (key: Id)
      requires Valid()
      modifies `archiver, `autoKey, `keys, `elementKeys
      ensures Valid()
      ensures State() == LookUpKey(old(State()), name)
      ensures key == State().keys[name]
      ensures archiver == Recorded(old(archiver), KeyLog(old(State()), name))
    {
      hide AllChained, ClosedAt, GraphOf, NodesOf;
      if name !in keys {
        autoKey := autoKey + 1;
        key := autoKey;
        keys := keys[name := key];
        elementKeys := elementKeys[key := name];
        ElementsKept(this);
        ExecCommand(DefineKey(key, name));
      } else {
        key := keys[name];
      }
    }

    method SetKey(name: string, key: Id)
      requires Valid()
      modifies `autoKey, `keys, `elementKeys
      ensures Valid()
      ensures State() == InstallKey(old(State()), name, key)
    {
      hide AllChained, ClosedAt, GraphOf, NodesOf;
      if key > autoKey {
        autoKey := key;
      }
      keys := keys[name := key];
      elementKeys := elementKeys[key := name];
      ElementsKept(this);
    }

    method SetRootElement(e: Element?)
      requires Valid() && (e != null ==> Has(e))
      modifies `rootElement, `archiver
      ensures Valid()
      ensures State() == old(State()).(root := IdOf(e))
      ensures archiver == Recorded(old(archiver), [SetRoot(IdOf(e))])
    {
      hide AllChained, ClosedAt, GraphOf, NodesOf;
      rootElement := e;
      ElementsKept(this);
      ExecCommand(SetRoot(if e == null then 0 else e.elementId));
    }

    method Find(id: Id) returns (e: Element?)
      requires Valid()
      ensures e == if id in elements then elements[id] else null
      ensures e != null ==> e.document == this && Has(e) && e.elementId == id
    {
      e := null;
      if id in elements {
        e := elements[id];
        assert ClosedAt(elements, id);
      }
    }

    // What dispatching does for each command that names elements: unknown ids are ignored.

    method AppendById(t: Id, x: Id)
      requires Valid()
      modifies `archiver, elements.Values
      ensures Valid()
      ensures
        var d := old(State());
        if t in d.nodes && x in d.nodes
        then State() == DomModel.Append(d, t, x) && archiver == Recorded(old(archiver), AppendLog(d, t, x))
        else State() == d && archiver == old(archiver)
    {
      var e := Find(t);
      var p := Find(x);
      if e != null && p != null {
        e.Append(p);
      }
    }

    method BeforeById(t: Id, x: Id)
      requires Valid()
      modifies `archiver, elements.Values
      ensures Valid()
      ensures
        var d := old(State());
        if t in d.nodes && x in d.nodes
        then State() == DomModel.Before(d, t, x) && archiver == Recorded(old(archiver), BeforeLog(d, t, x))
        else State() == d && archiver == old(archiver)
    {
      var e := Find(t);
      var p := Find(x);
      if e != null && p != null {
        e.Before(p);
      }
    }

    method AfterById(t: Id, x: Id)
      requires Valid()
      modifies `archiver, elements.Values
      ensures Valid()
      ensures
        var d := old(State());
        if t in d.nodes && x in d.nodes
        then State() == DomModel.After(d, t, x) && archiver == Recorded(old(archiver), AfterLog(d, t, x))
        else State() == d && archiver == old(archiver)
    {
      var e := Find(t);
      var p := Find(x);
      if e != null && p != null {
        e.After(p);
      }
    }

    method RemoveById(x: Id)
      requires Valid()
      modifies `archiver, elements.Values
      ensures Valid()
      ensures
        var d := old(State());
        if x in d.nodes
        then State() == DomModel.Remove(d, x) && archiver == Recorded(old(archiver), RemoveLog(d, x))
        else State() == d && archiver == old(archiver)
    {
      var e := Find(x);
      if e != null {
        e.Remove();
      }
    }

    method SetById(x: Id, key: string, value: Option<string>)
      requires Valid()
      modifies `archiver, `autoKey, `keys, `elementKeys, elements.Values
      ensures Valid()
      ensures
        var d := old(State());
        if x in d.nodes
        then State() == SetAttr(d, x, key, value) && archiver == Recorded(old(archiver), AttrLog(d, x, key, value))
        else State() == d && archiver == old(archiver)
    {
      var e := Find(x);
      if e != null {
        e.Set(key, value);
      }
    }

    method SetRootById(x: Id)
      requires Valid()
      modifies `archiver, `rootElement
      ensures Valid()
      ensures
        var d := old(State());
        var root := if x in d.nodes then x else 0;
        State() == d.(root := root) && archiver == Recorded(old(archiver), [SetRoot(root)])
    {
      var e := Find(x);
      SetRootElement(e);
    }

    /** Applies one recorded command. */
    method DispatchCommand(command: Command)
      requires Valid() && Dispatchable(State(), command)
      modifies this, elements.Values
      ensures Valid()
      ensures State() == Dispatch(old(State()), command)
      ensures fresh(elements.Values - old(elements.Values))
    {
      hide Valid, IdLists, IdOf, GraphOf, Recorded;
      hide DomModel.Append, DomModel.Before, DomModel.After, DomModel.Remove, SetAttr, Replication.CreateElement;
      match command
      case Alloc(id, name) => var e := CreateElement(name, id);
      case SetRoot(id) => SetRootById(id);
      case SetAttribute(id, key, value) =>
        var e := Find(id);
        if e != null {
          SetById(id, elementKeys[key], if value == "" then None else Some(value));
        }
      case AppendTo(id, subelementId) => AppendById(id, subelementId);
      case BeforeOf(id, siblingId) => BeforeById(id, siblingId);
      case AfterOf(id, siblingId) => AfterById(id, siblingId);
      case RemoveElement(id) => RemoveById(id);
      case DefineKey(key, name) => SetKey(name, key);
    }

    /** Applies a recorded transaction. */
    method SetTransaction(log: seq<Command>)
      requires Valid() && AllDispatchable(State(), log)
      modifies this, elements.Values
      ensures Valid()
      ensures State() == DispatchAll(old(State()), log)
    {
      for i := 0 to |log|
        invariant Valid() && AllDispatchable(State(), log[i..])
        invariant DispatchAll(State(), log[i..]) == DispatchAll(old(State()), log)
        invariant fresh(elements.Values - old(elements.Values))
      {
        assert log[i..][0] == log[i] && log[i..][1..] == log[i + 1..];
        DispatchCommand(log[i]);
      }
    }

    /** One client operation, as a call of the corresponding method. */
    method Execute(op: Op)
      requires Valid() && Enabled(State(), op)
      modifies this, elements.Values
      ensures Valid()
      ensures State() == Step(old(State()), op)
      ensures archiver == Recorded(old(archiver), StepLog(old(State()), op))
      ensures fresh(elements.Values - old(elements.Values))
    {
      hide AllChained, ClosedAt, IdLists, IdOf, GraphOf, Recorded;
      hide DomModel.Append, DomModel.Before, DomModel.After, DomModel.Remove, SetAttr, Replication.CreateElement;
      match op
      case Create(name) => var e := CreateElement(name, 0);
      case AppendOp(t, x) => AppendById(t, x);
      case BeforeOp(t, x) => BeforeById(t, x);
      case AfterOp(t, x) => AfterById(t, x);
      case RemoveOp(x) => RemoveById(x);
      case AttrOp(x, key, value) => SetById(x, key, value);
      case RootOp(x) => SetRootById(x);
    }

    method ExecuteAll(ops: seq<Op>)
      requires Valid() && AllEnabled(State(), ops)
      modifies this, elements.Values
      ensures Valid()
      ensures State() == Run(old(State()), ops)
      ensures archiver == Recorded(old(archiver), RunLog(old(State()), ops))
      decreases |ops|
    {
      if ops != [] {
        ghost var d := State();
        Execute(ops[0]);
        ghost var e := State();
        ExecuteAll(ops[1..]);
        RecordedTwice(old(archiver), StepLog(d, ops[0]), RunLog(e, ops[1..]));
      }
    }

    /** A transaction around any run of client operations. */
    method Transact(ops: seq<Op>) returns (log: seq<Command>)
      requires Valid() && AllEnabled(State(), ops)
      modifies this, elements.Values
      ensures Valid()
      ensures State() == Run(old(State()), ops)
      ensures log == RunLog(old(State()), ops) && archiver == None
    {
      StartTransaction();
      ExecuteAll(ops);
      var recorded := CommitTransaction();
      log := if recorded.None? then [] else recorded.value;
    }
  }

  /** A new document with a recorded transaction applied to it. */
  method ReplicaOf(log: seq<Command>) returns (replica: Document)
    requires AllDispatchable(EMPTY, log)
    ensures fresh(replica) && replica.Valid() && replica.State() == DispatchAll(EMPTY, log)
  {
    replica := new Document();
    replica.SetTransaction(log);
  }

  method RecordingOf(ops: seq<Op>) returns (source: Document, log: seq<Command>)
    requires AllEnabled(EMPTY, ops)
    ensures source.Valid() && source.State() == Run(EMPTY, ops) && log == RunLog(EMPTY, ops)
  {
    source := new Document();
    log := source.Transact(ops);
  }

  /** End to end: a run of operations on one new document, its recorded transaction applied to
      another, and the two documents agree on everything but empty attribute values. */
  method Replicate(ops: seq<Op>) returns (source: Document, replica: Document)
    requires AllEnabled(EMPTY, ops)
    ensures source.Valid() && source.State() == Run(EMPTY, ops)
    ensures replica.Valid() && replica.State() == Visible(Run(EMPTY, ops))
  {
    var log;
    source, log := RecordingOf(ops);
    Replicates(ops);
    replica := ReplicaOf(log);
  }
}
