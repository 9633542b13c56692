/** The commands a document records, what each client operation records, and the theorem
    that dispatching a recorded log rebuilds the document. */
module Replication {
  import opened DomModel

  datatype Option<T> = None | Some(value: T)

  datatype Command =
    | Alloc(elementId: Id, name: string)
    | SetRoot(elementId: Id)
    | SetAttribute(elementId: Id, key: Id, value: string)
    | AppendTo(elementId: Id, subelementId: Id)
    | BeforeOf(elementId: Id, siblingId: Id)
    | AfterOf(elementId: Id, siblingId: Id)
    | RemoveElement(elementId: Id)
    | DefineKey(key: Id, name: string)

  // ---------------------------------------------------------------- state changes

  /** A new parentless element; `id == 0` asks for the next free id. */
  function CreateElement(d: Dom, name: string, id: Id): (r: Dom)
  {
    var autoKey := if id == 0 then d.autoKey + 1 else if id > d.autoKey then id else d.autoKey;
    var id := if id == 0 then autoKey else id;
    var same := if name in d.byName then d.byName[name] else [];
    d.(autoKey := autoKey,
       nodes := d.nodes[id := Node(name, 0, [], map[])],
       byName := d.byName[name := same + [id]])
  }

  /** A key table entry, as the replica installs it. */
  function InstallKey(d: Dom, name: string, key: Id): Dom {
    d.(autoKey := if key > d.autoKey then key else d.autoKey,
       keys := d.keys[name := key],
       names := d.names[key := name])
  }

  /** The table after `name` has been looked up, with a new entry if there was none. */
  function LookUpKey(d: Dom, name: string): (r: Dom)
    ensures name in r.keys
    ensures r.nodes == d.nodes
  {
    if name in d.keys then d else InstallKey(d, name, d.autoKey + 1)
  }

  /** One attribute map after an assignment; no value means erase. */
  function Assign(attrs: map<string, string>, key: string, value: Option<string>): map<string, string> {
    if value.None? then attrs - {key} else attrs[key := value.value]
  }

  function SetAttr(d: Dom, x: Id, key: string, value: Option<string>): (r: Dom)
    requires x in d.nodes
    ensures r.nodes.Keys == d.nodes.Keys && key in r.keys
  {
    LookUpKey(WithAttrs(d, x, Assign(d.nodes[x].attrs, key, value)), key)
  }

  function WithAttrs(d: Dom, x: Id, attrs: map<string, string>): (r: Dom)
    requires x in d.nodes
    ensures r.nodes.Keys == d.nodes.Keys
  {
    d.(nodes := d.nodes[x := d.nodes[x].(attrs := attrs)])
  }

  // ---------------------------------------------------------------- what is recorded

  function RemoveLog(d: Dom, x: Id): seq<Command>
    requires x in d.nodes
  {
    if d.nodes[x].parent != 0 then [RemoveElement(x)] else []
  }

  function AppendLog(d: Dom, t: Id, x: Id): seq<Command>
    requires t in d.nodes && x in d.nodes
  {
    RemoveLog(d, x) + [AppendTo(t, x)]
  }

  /** Nothing is recorded for the insertion when the target has no parent left. */
  function BeforeLog(d: Dom, t: Id, x: Id): seq<Command>
    requires t in d.nodes && x in d.nodes
  {
    RemoveLog(d, x) + if t != x && d.nodes[t].parent != 0 then [BeforeOf(t, x)] else []
  }

  function AfterLog(d: Dom, t: Id, x: Id): seq<Command>
    requires t in d.nodes && x in d.nodes
  {
    RemoveLog(d, x) + if t != x && d.nodes[t].parent != 0 then [AfterOf(t, x)] else []
  }

  function KeyLog(d: Dom, name: string): seq<Command> {
    if name in d.keys then [] else [DefineKey(d.autoKey + 1, name)]
  }

  function AttrLog(d: Dom, x: Id, key: string, value: Option<string>): seq<Command> {
    KeyLog(d, key)
    + [SetAttribute(x, LookUpKey(d, key).keys[key], if value.None? then "" else value.value)]
  }

  // ---------------------------------------------------------------- client operations

  datatype Op =
    | Create(name: string)
    | AppendOp(target: Id, moved: Id)
    | BeforeOp(target: Id, moved: Id)
    | AfterOp(target: Id, moved: Id)
    | RemoveOp(moved: Id)
    | AttrOp(element: Id, key: string, value: Option<string>)
    | RootOp(root: Id)

  /** The elements an operation names exist (the root may also be cleared). */
  predicate Enabled(d: Dom, op: Op) {
    match op
    case Create(_) => true
    case AppendOp(t, x) => t in d.nodes && x in d.nodes
    case BeforeOp(t, x) => t in d.nodes && x in d.nodes
    case AfterOp(t, x) => t in d.nodes && x in d.nodes
    case RemoveOp(x) => x in d.nodes
    case AttrOp(x, _, _) => x in d.nodes
    case RootOp(x) => x == 0 || x in d.nodes
  }

  function Step(d: Dom, op: Op): Dom
    requires Enabled(d, op)
  {
    match op
    case Create(name) => CreateElement(d, name, 0)
    case AppendOp(t, x) => Append(d, t, x)
    case BeforeOp(t, x) => Before(d, t, x)
    case AfterOp(t, x) => After(d, t, x)
    case RemoveOp(x) => Remove(d, x)
    case AttrOp(x, key, value) => SetAttr(d, x, key, value)
    case RootOp(x) => d.(root := x)
  }

  function StepLog(d: Dom, op: Op): seq<Command>
    requires Enabled(d, op)
  {
    match op
    case Create(name) => [Alloc(d.autoKey + 1, name)]
    case AppendOp(t, x) => AppendLog(d, t, x)
    case BeforeOp(t, x) => BeforeLog(d, t, x)
    case AfterOp(t, x) => AfterLog(d, t, x)
    case RemoveOp(x) => RemoveLog(d, x)
    case AttrOp(x, key, value) => AttrLog(d, x, key, value)
    case RootOp(x) => [SetRoot(x)]
  }

  predicate AllEnabled(d: Dom, ops: seq<Op>)
    decreases |ops|
  {
    ops == [] || (Enabled(d, ops[0]) && AllEnabled(Step(d, ops[0]), ops[1..]))
  }

  function Run(d: Dom, ops: seq<Op>): Dom
    requires AllEnabled(d, ops)
    decreases |ops|
  {
    if ops == [] then d else Run(Step(d, ops[0]), ops[1..])
  }

  function RunLog(d: Dom, ops: seq<Op>): seq<Command>
    requires AllEnabled(d, ops)
    decreases |ops|
  {
    if ops == [] then [] else StepLog(d, ops[0]) + RunLog(Step(d, ops[0]), ops[1..])
  }

  // ---------------------------------------------------------------- dispatching

  /** What the replica demands of a command: a new element has an unused id, and an
      attribute key number has been defined.  Unknown element ids are tolerated. */
  predicate Dispatchable(d: Dom, c: Command) {
    match c
    case Alloc(id, _) => 0 <= id && id !in d.nodes
    case SetAttribute(x, key, _) => x in d.nodes ==> key in d.names
    case _ => true
  }

  function Dispatch(d: Dom, c: Command): Dom
    requires Dispatchable(d, c)
  {
    match c
    case Alloc(id, name) => CreateElement(d, name, id)
    case SetRoot(x) => d.(root := if x in d.nodes then x else 0)
    case SetAttribute(x, key, value) =>
      if x !in d.nodes then d
      else SetAttr(d, x, d.names[key], if value == "" then None else Some(value))
    case AppendTo(t, x) => if t in d.nodes && x in d.nodes then Append(d, t, x) else d
    case BeforeOf(t, x) => if t in d.nodes && x in d.nodes then Before(d, t, x) else d
    case AfterOf(t, x) => if t in d.nodes && x in d.nodes then After(d, t, x) else d
    case RemoveElement(x) => if x in d.nodes then Remove(d, x) else d
    case DefineKey(key, name) => InstallKey(d, name, key)
  }

  predicate AllDispatchable(d: Dom, log: seq<Command>)
    decreases |log|
  {
    log == [] || (Dispatchable(d, log[0]) && AllDispatchable(Dispatch(d, log[0]), log[1..]))
  }

  function DispatchAll(d: Dom, log: seq<Command>): Dom
    requires AllDispatchable(d, log)
    decreases |log|
  {
    if log == [] then d else DispatchAll(Dispatch(d, log[0]), log[1..])
  }

  lemma {:induction false} DispatchAppend(d: Dom, a: seq<Command>, b: seq<Command>)
    requires AllDispatchable(d, a) && AllDispatchable(DispatchAll(d, a), b)
    ensures AllDispatchable(d, a + b)
    ensures DispatchAll(d, a + b) == DispatchAll(DispatchAll(d, a), b)
    decreases |a|
  {
    if a == [] {
      assert a + b == b;
    } else {
      DispatchAppend(Dispatch(d, a[0]), a[1..], b);
      assert (a + b)[1..] == a[1..] + b;
    }
  }

  // ---------------------------------------------------------------- invariant of a run

  /** Ids come from the counter, and the two key tables are each other's inverse. */
  ghost predicate Consistent(d: Dom) {
    && Linked(d)
    && 0 <= d.autoKey
    && (forall x :: x in d.nodes ==> 0 < x <= d.autoKey)
    && (forall k :: k in d.names ==> 0 < k <= d.autoKey && d.names[k] in d.keys && d.keys[d.names[k]] == k)
    && (forall s :: s in d.keys ==> d.keys[s] in d.names && d.names[d.keys[s]] == s)
    && (d.root == 0 || d.root in d.nodes)
  }

  lemma EmptyConsistent()
    ensures Consistent(EMPTY)
  {
  }

  lemma {:induction false} CreateLinked(d: Dom, name: string, id: Id)
    requires Linked(d) && 0 <= d.autoKey && 0 <= id && id !in d.nodes && d.autoKey + 1 !in d.nodes
    ensures Linked(CreateElement(d, name, id))
  {
    var e := CreateElement(d, name, id);
    forall x | x in e.nodes
      ensures NodeLinked(e, x)
    {
      if x in d.nodes {
        assert NodeLinked(d, x);
      }
    }
  }

  lemma {:induction false} AssignLinked(d: Dom, x: Id, attrs: map<string, string>)
    requires Linked(d) && x in d.nodes
    ensures Linked(WithAttrs(d, x, attrs))
  {
    var e := WithAttrs(d, x, attrs);
    forall y | y in e.nodes
      ensures NodeLinked(e, y)
    {
      assert NodeLinked(d, y);
    }
  }

  lemma {:induction false} LookUpKeyConsistent(d: Dom, name: string)
    requires Consistent(d)
    ensures Consistent(LookUpKey(d, name))
  {
    SameNodesLinked(d, LookUpKey(d, name));
  }

  lemma {:induction false} SameNodesLinked(d: Dom, e: Dom)
    requires Linked(d) && e.nodes == d.nodes
    ensures Linked(e)
  {
    forall x | x in e.nodes
      ensures NodeLinked(e, x)
    {
      assert NodeLinked(d, x);
    }
  }

  /** Operations that only rearrange the forest keep the counter, the tables and the root. */
  lemma {:induction false} ForestConsistent(d: Dom, e: Dom)
    requires Consistent(d) && Linked(e) && e.nodes.Keys == d.nodes.Keys && e == d.(nodes := e.nodes)
    ensures Consistent(e)
  {
  }

  /** Every operation keeps the invariant. */
  lemma {:induction false} StepConsistent(d: Dom, op: Op)
    requires Consistent(d) && Enabled(d, op)
    ensures Consistent(Step(d, op))
  {
    hide Linked, Without, InsertBefore, InsertAfter;
    match op
    case Create(name) =>
      CreateLinked(d, name, 0);
    case AppendOp(t, x) =>
      AppendLinked(d, t, x);
      ForestConsistent(d, Append(d, t, x));
    case BeforeOp(t, x) =>
      BeforeLinked(d, t, x);
      ForestConsistent(d, Before(d, t, x));
    case AfterOp(t, x) =>
      AfterLinked(d, t, x);
      ForestConsistent(d, After(d, t, x));
    case RemoveOp(x) =>
      RemoveLinked(d, x);
      ForestConsistent(d, Remove(d, x));
    case AttrOp(x, key, value) =>
      var e := WithAttrs(d, x, Assign(d.nodes[x].attrs, key, value));
      AssignLinked(d, x, Assign(d.nodes[x].attrs, key, value));
      ForestConsistent(d, e);
      LookUpKeyConsistent(e, key);
    case RootOp(x) =>
      SameNodesLinked(d, Step(d, op));
  }

  // ---------------------------------------------------------------- replication

  function NonEmpty(attrs: map<string, string>): map<string, string> {
    map k | k in attrs && attrs[k] != "" :: attrs[k]
  }

  /** The document with empty-string attribute values dropped: an empty value and an erased
      attribute are recorded by the same command. */
  function Visible(d: Dom): (r: Dom)
    ensures r.nodes.Keys == d.nodes.Keys
  {
    d.(nodes := map x | x in d.nodes :: d.nodes[x].(attrs := NonEmpty(d.nodes[x].attrs)))
  }

  lemma {:induction false} RemoveVisible(d: Dom, x: Id)
    requires x in d.nodes
    ensures Visible(Remove(d, x)) == Remove(Visible(d), x)
  {
  }

  lemma {:induction false} LinkVisible(d: Dom, p: Id, x: Id, kids: seq<Id>)
    requires p in d.nodes && x in d.nodes
    ensures Visible(Link(d, p, x, kids)) == Link(Visible(d), p, x, kids)
  {
  }

  lemma {:induction false} AppendVisible(d: Dom, t: Id, x: Id)
    requires t in d.nodes && x in d.nodes
    ensures Visible(Append(d, t, x)) == Append(Visible(d), t, x)
  {
    RemoveVisible(d, x);
    var e := Remove(d, x);
    LinkVisible(e, t, x, e.nodes[t].kids + [x]);
  }

  lemma {:induction false} BesideVisible(d: Dom, t: Id, x: Id)
    requires t in d.nodes && x in d.nodes
    ensures Visible(Before(d, t, x)) == Before(Visible(d), t, x)
    ensures Visible(After(d, t, x)) == After(Visible(d), t, x)
  {
    RemoveVisible(d, x);
    var e := Remove(d, x);
    var p := e.nodes[t].parent;
    if p in e.nodes && t in e.nodes[p].kids {
      LinkVisible(e, p, x, InsertBefore(e.nodes[p].kids, t, x));
      LinkVisible(e, p, x, InsertAfter(e.nodes[p].kids, t, x));
    }
  }

  lemma {:induction false} RemoveTwice(d: Dom, x: Id)
    requires Linked(d) && x in d.nodes
    ensures Remove(Remove(d, x), x) == Remove(d, x)
  {
    RemoveAgrees(d, x);
  }

  /** Removing first, as the log says, does not change what a move does. */
  lemma {:induction false} MoveAfterRemove(d: Dom, t: Id, x: Id)
    requires Linked(d) && t in d.nodes && x in d.nodes
    ensures Append(Remove(d, x), t, x) == Append(d, t, x)
    ensures Before(Remove(d, x), t, x) == Before(d, t, x)
    ensures After(Remove(d, x), t, x) == After(d, t, x)
  {
    RemoveTwice(d, x);
  }

  lemma {:induction false} RemoveReplicates(d: Dom, x: Id)
    requires Consistent(d) && x in d.nodes
    ensures AllDispatchable(Visible(d), RemoveLog(d, x))
    ensures DispatchAll(Visible(d), RemoveLog(d, x)) == Visible(Remove(d, x))
  {
    assert NodeLinked(d, x);
    RemoveVisible(d, x);
    var log := RemoveLog(d, x);
    if log != [] {
      assert log[1..] == [];
    }
  }

  /** A move is replicated by the removal followed by one move command (or none). */
  lemma {:induction false} MoveReplicates(d: Dom, t: Id, x: Id, last: seq<Command>, e: Dom)
    requires Consistent(d) && t in d.nodes && x in d.nodes && |last| <= 1
    requires AllDispatchable(Visible(Remove(d, x)), last)
    requires DispatchAll(Visible(Remove(d, x)), last) == Visible(e)
    ensures AllDispatchable(Visible(d), RemoveLog(d, x) + last)
    ensures DispatchAll(Visible(d), RemoveLog(d, x) + last) == Visible(e)
  {
    RemoveReplicates(d, x);
    DispatchAppend(Visible(d), RemoveLog(d, x), last);
  }

  lemma {:induction false} DispatchOne(d: Dom, c: Command)
    requires Dispatchable(d, c)
    ensures AllDispatchable(d, [c])
    ensures DispatchAll(d, [c]) == Dispatch(d, c)
  {
    assert [c][1..] == [];
  }

  lemma {:induction false} AppendReplicates(d: Dom, t: Id, x: Id)
    requires Consistent(d) && t in d.nodes && x in d.nodes
    ensures AllDispatchable(Visible(d), AppendLog(d, t, x))
    ensures DispatchAll(Visible(d), AppendLog(d, t, x)) == Visible(Append(d, t, x))
  {
    MoveAfterRemove(d, t, x);
    AppendVisible(Remove(d, x), t, x);
    DispatchOne(Visible(Remove(d, x)), AppendTo(t, x));
    MoveReplicates(d, t, x, [AppendTo(t, x)], Append(d, t, x));
  }

  lemma {:induction false} BeforeReplicates(d: Dom, t: Id, x: Id)
    requires Consistent(d) && t in d.nodes && x in d.nodes
    ensures AllDispatchable(Visible(d), BeforeLog(d, t, x))
    ensures DispatchAll(Visible(d), BeforeLog(d, t, x)) == Visible(Before(d, t, x))
  {
    assert NodeLinked(d, t);
    if t != x && d.nodes[t].parent != 0 {
      MoveAfterRemove(d, t, x);
      BesideVisible(Remove(d, x), t, x);
      DispatchOne(Visible(Remove(d, x)), BeforeOf(t, x));
      MoveReplicates(d, t, x, [BeforeOf(t, x)], Before(d, t, x));
    } else {
      BeforeMoves(d, t, x);
      MoveReplicates(d, t, x, [], Before(d, t, x));
    }
  }

  lemma {:induction false} AfterReplicates(d: Dom, t: Id, x: Id)
    requires Consistent(d) && t in d.nodes && x in d.nodes
    ensures AllDispatchable(Visible(d), AfterLog(d, t, x))
    ensures DispatchAll(Visible(d), AfterLog(d, t, x)) == Visible(After(d, t, x))
  {
    assert NodeLinked(d, t);
    if t != x && d.nodes[t].parent != 0 {
      MoveAfterRemove(d, t, x);
      BesideVisible(Remove(d, x), t, x);
      DispatchOne(Visible(Remove(d, x)), AfterOf(t, x));
      MoveReplicates(d, t, x, [AfterOf(t, x)], After(d, t, x));
    } else {
      AfterMoves(d, t, x);
      MoveReplicates(d, t, x, [], After(d, t, x));
    }
  }

  lemma {:induction false} KeyReplicates(d: Dom, name: string)
    requires Consistent(d)
    ensures AllDispatchable(Visible(d), KeyLog(d, name))
    ensures DispatchAll(Visible(d), KeyLog(d, name)) == Visible(LookUpKey(d, name))
  {
    if name !in d.keys {
      DispatchOne(Visible(d), DefineKey(d.autoKey + 1, name));
    }
  }

  /** Erasing for an empty text is what dropping empty values makes of an assignment. */
  lemma {:induction false} AssignVisible(attrs: map<string, string>, key: string, value: Option<string>)
    ensures
      var text := if value.None? then "" else value.value;
      NonEmpty(Assign(attrs, key, value))
        == Assign(NonEmpty(attrs), key, if text == "" then None else Some(text))
  {
  }

  lemma {:induction false} WithAttrsVisible(d: Dom, x: Id, attrs: map<string, string>)
    requires x in d.nodes
    ensures Visible(WithAttrs(d, x, attrs)) == WithAttrs(Visible(d), x, NonEmpty(attrs))
  {
  }

  lemma {:induction false} SetAttributeVisible(d: Dom, x: Id, key: string, value: Option<string>)
    requires Consistent(d) && x in d.nodes
    ensures
      var e := LookUpKey(d, key);
      var c := SetAttribute(x, e.keys[key], if value.None? then "" else value.value);
      Dispatchable(Visible(e), c) && Dispatch(Visible(e), c) == Visible(SetAttr(d, x, key, value))
  {
    var e := LookUpKey(d, key);
    assert e.names[e.keys[key]] == key;
    AssignVisible(d.nodes[x].attrs, key, value);
    var after := Assign(d.nodes[x].attrs, key, value);
    assert SetAttr(d, x, key, value) == WithAttrs(e, x, after);
    WithAttrsVisible(e, x, after);
  }

  lemma {:induction false} AttrReplicates(d: Dom, x: Id, key: string, value: Option<string>)
    requires Consistent(d) && x in d.nodes
    ensures AllDispatchable(Visible(d), AttrLog(d, x, key, value))
    ensures DispatchAll(Visible(d), AttrLog(d, x, key, value)) == Visible(SetAttr(d, x, key, value))
  {
    var e := LookUpKey(d, key);
    var c := SetAttribute(x, e.keys[key], if value.None? then "" else value.value);
    KeyReplicates(d, key);
    SetAttributeVisible(d, x, key, value);
    DispatchOne(Visible(e), c);
    DispatchAppend(Visible(d), KeyLog(d, key), [c]);
  }

  lemma {:induction false} CreateReplicates(d: Dom, name: string)
    requires Consistent(d)
    ensures AllDispatchable(Visible(d), [Alloc(d.autoKey + 1, name)])
    ensures DispatchAll(Visible(d), [Alloc(d.autoKey + 1, name)]) == Visible(CreateElement(d, name, 0))
  {
    hide Linked;
    var c := Alloc(d.autoKey + 1, name);
    assert Dispatch(Visible(d), c) == Visible(CreateElement(d, name, 0));
    DispatchOne(Visible(d), c);
  }

  lemma {:induction false} RootReplicates(d: Dom, x: Id)
    requires Consistent(d) && (x == 0 || x in d.nodes)
    ensures AllDispatchable(Visible(d), [SetRoot(x)])
    ensures DispatchAll(Visible(d), [SetRoot(x)]) == Visible(d.(root := x))
  {
    hide Linked;
    DispatchOne(Visible(d), SetRoot(x));
  }

  /** Dispatching what one operation recorded, on a replica that agrees with the document
      before it, makes the replica agree with the document after it. */
  lemma {:induction false} StepReplicates(d: Dom, op: Op)
    requires Consistent(d) && Enabled(d, op)
    ensures AllDispatchable(Visible(d), StepLog(d, op))
    ensures DispatchAll(Visible(d), StepLog(d, op)) == Visible(Step(d, op))
  {
    hide Consistent, Visible, DispatchAll, AllDispatchable, CreateElement, SetAttr, Append, Before, After, Remove;
    match op
    case Create(name) =>
      CreateReplicates(d, name);
    case AppendOp(t, x) =>
      AppendReplicates(d, t, x);
    case BeforeOp(t, x) =>
      BeforeReplicates(d, t, x);
    case AfterOp(t, x) =>
      AfterReplicates(d, t, x);
    case RemoveOp(x) =>
      RemoveReplicates(d, x);
    case AttrOp(x, key, value) =>
      AttrReplicates(d, x, key, value);
    case RootOp(x) =>
      RootReplicates(d, x);
  }

  /** The replication theorem for a transaction that starts in any reachable document. */
  lemma {:induction false} RunReplicates(d: Dom, ops: seq<Op>)
    requires Consistent(d) && AllEnabled(d, ops)
    ensures Consistent(Run(d, ops))
    ensures AllDispatchable(Visible(d), RunLog(d, ops))
    ensures DispatchAll(Visible(d), RunLog(d, ops)) == Visible(Run(d, ops))
    decreases |ops|
  {
    if ops != [] {
      var e := Step(d, ops[0]);
      StepConsistent(d, ops[0]);
      StepReplicates(d, ops[0]);
      RunReplicates(e, ops[1..]);
      DispatchAppend(Visible(d), StepLog(d, ops[0]), RunLog(e, ops[1..]));
    }
  }

  /** From an empty document: the second empty document ends up with the same forest, root,
      key tables and counter, and the same attributes but for empty values. */
  lemma {:induction false} Replicates(ops: seq<Op>)
    requires AllEnabled(EMPTY, ops)
    ensures AllDispatchable(EMPTY, RunLog(EMPTY, ops))
    ensures DispatchAll(EMPTY, RunLog(EMPTY, ops)) == Visible(Run(EMPTY, ops))
  {
    EmptyConsistent();
    assert Visible(EMPTY) == EMPTY;
    RunReplicates(EMPTY, ops);
  }

  /** The replica is exactly the recorded document if and only if no attribute of it holds
      the empty string. */
  lemma {:induction false} ReplicaExact(ops: seq<Op>)
    requires AllEnabled(EMPTY, ops)
    ensures
      var d := Run(EMPTY, ops);
      AllDispatchable(EMPTY, RunLog(EMPTY, ops))
      && (DispatchAll(EMPTY, RunLog(EMPTY, ops)) == d <==>
          forall x, k :: x in d.nodes && k in d.nodes[x].attrs ==> d.nodes[x].attrs[k] != "")
  {
    Replicates(ops);
    var d := Run(EMPTY, ops);
    if forall x, k :: x in d.nodes && k in d.nodes[x].attrs ==> d.nodes[x].attrs[k] != "" {
      forall x | x in d.nodes
        ensures Visible(d).nodes[x] == d.nodes[x]
      {
        assert NonEmpty(d.nodes[x].attrs) == d.nodes[x].attrs;
      }
      assert Visible(d).nodes == d.nodes;
    } else {
      var x, k :| x in d.nodes && k in d.nodes[x].attrs && d.nodes[x].attrs[k] == "";
      assert k !in Visible(d).nodes[x].attrs;
    }
  }

  const EMPTY_VALUE := [Create("a"), AttrOp(1, "k", Some(""))]

  /** Setting the empty text reaches the replica as erasing the attribute. */
  lemma EmptyValueLost()
    ensures AllEnabled(EMPTY, EMPTY_VALUE) && AllDispatchable(EMPTY, RunLog(EMPTY, EMPTY_VALUE))
    ensures var d := Run(EMPTY, EMPTY_VALUE); 1 in d.nodes && d.nodes[1].attrs == map["k" := ""]
    ensures var r := DispatchAll(EMPTY, RunLog(EMPTY, EMPTY_VALUE)); 1 in r.nodes && r.nodes[1].attrs == map[]
  {
    var d := CreateElement(EMPTY, "a", 0);
    var e := SetAttr(d, 1, "k", Some(""));
    assert AllEnabled(d, EMPTY_VALUE[1..]) && Run(d, EMPTY_VALUE[1..]) == e;
    Replicates(EMPTY_VALUE);
  }

  // ---------------------------------------------------------------- what the operations do to names and tables

  /** Attribute `key` of `x` now has the given value, or none; no other attribute and nothing of the forest has changed. */
  ghost predicate AttributeIs(d: Dom, x: Id, key: string, value: Option<string>, e: Dom)
    requires x in d.nodes
  {
    && e.nodes.Keys == d.nodes.Keys
    && (forall y :: y in d.nodes && y != x ==> e.nodes[y] == d.nodes[y])
    && e.nodes[x].(attrs := d.nodes[x].attrs) == d.nodes[x]
    && (if value.Some? then key in e.nodes[x].attrs && e.nodes[x].attrs[key] == value.value
        else key !in e.nodes[x].attrs)
    && (forall k :: k != key ==>
          && (k in e.nodes[x].attrs <==> k in d.nodes[x].attrs)
          && (k in d.nodes[x].attrs ==> e.nodes[x].attrs[k] == d.nodes[x].attrs[k]))
    && e.byName == d.byName && e.root == d.root
  }

  /** The name has a number, which is new if it had none; no other name or number has changed. */
  ghost predicate KeyGiven(d: Dom, name: string, e: Dom) {
    && name in e.keys && e.keys[name] in e.names && e.names[e.keys[name]] == name
    && (if name in d.keys then e.keys == d.keys && e.names == d.names && e.autoKey == d.autoKey
        else e.keys[name] == e.autoKey == d.autoKey + 1)
    && (forall s :: s != name ==> (s in e.keys <==> s in d.keys) && (s in d.keys ==> e.keys[s] == d.keys[s]))
    && (forall k :: k != e.keys[name] ==> (k in e.names <==> k in d.names) && (k in d.names ==> e.names[k] == d.names[k]))
  }

  /** An assignment stores the value, whatever was there. */
  lemma AttributeStored(d: Dom, x: Id, key: string, value: Option<string>)
    requires Consistent(d) && x in d.nodes
    ensures AttributeIs(d, x, key, value, Step(d, AttrOp(x, key, value))) && KeyGiven(d, key, Step(d, AttrOp(x, key, value)))
  {
    hide Linked;
  }

  /** A new parentless element without attributes, of the given name, whose number no other has; behind those of its name. */
  lemma ElementCreated(d: Dom, name: string)
    requires Consistent(d)
    ensures
      var e, id := Step(d, Create(name)), d.autoKey + 1;
      && id !in d.nodes && e.nodes.Keys == d.nodes.Keys + {id} && e.autoKey == id
      && e.nodes[id] == Node(name, 0, [], map[])
      && (forall y :: y in d.nodes ==> e.nodes[y] == d.nodes[y])
      && name in e.byName && e.byName[name] == (if name in d.byName then d.byName[name] else []) + [id]
      && (forall s :: s != name ==> (s in e.byName <==> s in d.byName) && (s in d.byName ==> e.byName[s] == d.byName[s]))
      && e.root == d.root && e.keys == d.keys && e.names == d.names
  {
    hide Linked;
  }

  /** What each operation records, in order: a move records the removal first, if the element had a parent. */
  lemma OperationsRecord(d: Dom, op: Op)
    requires Consistent(d) && Enabled(d, op)
    ensures
      var log := StepLog(d, op);
      var removal := (x: Id) => if x in d.nodes && d.nodes[x].parent in d.nodes then [RemoveElement(x)] else [];
      match op
      case Create(name) => log == [Alloc(d.autoKey + 1, name)]
      case AppendOp(t, x) => log == removal(x) + [AppendTo(t, x)]
      case BeforeOp(t, x) =>
        log == removal(x) + if t == x || d.nodes[t].parent !in d.nodes then [] else [BeforeOf(t, x)]
      case AfterOp(t, x) =>
        log == removal(x) + if t == x || d.nodes[t].parent !in d.nodes then [] else [AfterOf(t, x)]
      case RemoveOp(x) => log == removal(x)
      case AttrOp(x, key, value) =>
        var number := if key in d.keys then d.keys[key] else d.autoKey + 1;
        log == (if key in d.keys then [] else [DefineKey(number, key)])
          + [SetAttribute(x, number, if value.Some? then value.value else "")]
      case RootOp(x) => log == [SetRoot(x)]
  {
    forall x | x in d.nodes
      ensures d.nodes[x].parent == 0 || d.nodes[x].parent in d.nodes
    {
      assert NodeLinked(d, x);
    }
  }

  /** What each recorded command does, whoever recorded it. Moves are those of the operations, on elements that exist. */
  lemma CommandsDo(d: Dom, c: Command)
    requires Dispatchable(d, c)
    ensures
      var e := Dispatch(d, c);
      match c
      case Alloc(id, name) =>
        id != 0 ==>
          && e.nodes == d.nodes[id := Node(name, 0, [], map[])] && e.autoKey == (if id > d.autoKey then id else d.autoKey)
          && e.root == d.root && e.keys == d.keys && e.names == d.names && name in e.byName
          && e.byName[name] == (if name in d.byName then d.byName[name] else []) + [id]
          && (forall s :: s != name ==> (s in e.byName <==> s in d.byName) && (s in d.byName ==> e.byName[s] == d.byName[s]))
      case SetRoot(x) => e.(root := d.root) == d && e.root == (if x in d.nodes then x else 0)
      case SetAttribute(x, key, value) =>
        if x in d.nodes
        then AttributeIs(d, x, d.names[key], if value == "" then None else Some(value), e)
        else e == d
      case AppendTo(t, x) => e == if t in d.nodes && x in d.nodes then Append(d, t, x) else d
      case BeforeOf(t, x) => e == if t in d.nodes && x in d.nodes then Before(d, t, x) else d
      case AfterOf(t, x) => e == if t in d.nodes && x in d.nodes then After(d, t, x) else d
      case RemoveElement(x) => e == if x in d.nodes then Remove(d, x) else d
      case DefineKey(key, name) =>
        && e.(autoKey := d.autoKey, keys := d.keys, names := d.names) == d
        && e.keys == d.keys[name := key] && e.names == d.names[key := name]
        && e.autoKey == (if key > d.autoKey then key else d.autoKey)
  {
  }

  // ---------------------------------------------------------------- cycles over whole runs

  /** A move that puts no element below itself. */
  ghost predicate Guarded(d: Dom, op: Op)
    requires Enabled(d, op)
  {
    match op
    case AppendOp(t, x) => !AtOrAbove(d, x, t)
    case BeforeOp(t, x) => !Above(d, x, t)
    case AfterOp(t, x) => !Above(d, x, t)
    case _ => true
  }

  ghost predicate AllGuarded(d: Dom, ops: seq<Op>)
    requires AllEnabled(d, ops)
    decreases |ops|
  {
    ops == [] || (Guarded(d, ops[0]) && AllGuarded(Step(d, ops[0]), ops[1..]))
  }

  /** The forest is acyclic at the start and after every operation. */
  ghost predicate AlwaysAcyclic(d: Dom, ops: seq<Op>)
    requires AllEnabled(d, ops)
    decreases |ops|
  {
    Acyclic(d) && (ops == [] || AlwaysAcyclic(Step(d, ops[0]), ops[1..]))
  }

  /** Who is above whom depends on the parents alone. */
  lemma {:induction false} SameUp(d: Dom, e: Dom, x: Id, n: nat)
    requires 0 !in d.nodes && 0 !in e.nodes && d.nodes.Keys <= e.nodes.Keys
    requires forall y :: y in d.nodes ==> d.nodes[y].parent == e.nodes[y].parent
    requires forall y :: y in e.nodes && y !in d.nodes ==> e.nodes[y].parent == 0
    requires Up(d, x, n) == 0
    ensures exists m: nat :: Up(e, x, m) == 0
    decreases n
  {
    if x !in e.nodes {
      assert Up(e, x, 0) == 0;
    } else if x !in d.nodes {
      assert Up(e, 0, 0) == 0 && Up(e, x, 1) == 0;
    } else {
      SameUp(d, e, d.nodes[x].parent, n - 1);
      var m: nat :| Up(e, d.nodes[x].parent, m) == 0;
      assert Up(e, x, m + 1) == 0;
    }
  }

  lemma {:induction false} SameParentsAcyclic(d: Dom, e: Dom)
    requires 0 !in d.nodes && 0 !in e.nodes && d.nodes.Keys <= e.nodes.Keys
    requires forall y :: y in d.nodes ==> d.nodes[y].parent == e.nodes[y].parent
    requires forall y :: y in e.nodes && y !in d.nodes ==> e.nodes[y].parent == 0
    requires Acyclic(d)
    ensures Acyclic(e)
  {
    forall x | x in e.nodes
      ensures Rooted(e, x)
    {
      if x in d.nodes {
        assert Rooted(d, x);
        var n: nat :| Up(d, x, n) == 0;
        SameUp(d, e, x, n);
      } else {
        assert Up(e, 0, 0) == 0 && Up(e, x, 1) == 0;
      }
    }
  }

  /** One operation keeps an acyclic forest acyclic exactly if it is guarded. */
  lemma {:induction false} StepAcyclic(d: Dom, op: Op)
    requires Consistent(d) && Enabled(d, op) && Acyclic(d)
    ensures Acyclic(Step(d, op)) <==> Guarded(d, op)
  {
    hide Acyclic, Linked;
    match op
    case Create(name) => SameParentsAcyclic(d, CreateElement(d, name, 0));
    case AppendOp(t, x) => AppendAcyclic(d, t, x);
    case BeforeOp(t, x) => BeforeAcyclic(d, t, x);
    case AfterOp(t, x) => AfterAcyclic(d, t, x);
    case RemoveOp(x) => RemoveAcyclic(d, x);
    case AttrOp(x, key, value) => SameParentsAcyclic(d, SetAttr(d, x, key, value));
    case RootOp(x) => SameParentsAcyclic(d, d.(root := x));
  }

  /** A run never has a cycle on its way exactly if every move in it is guarded where it is made. */
  lemma {:induction false} RunAcyclic(d: Dom, ops: seq<Op>)
    requires Consistent(d) && AllEnabled(d, ops) && Acyclic(d)
    ensures AlwaysAcyclic(d, ops) <==> AllGuarded(d, ops)
    ensures AllGuarded(d, ops) ==> Acyclic(Run(d, ops))
    decreases |ops|
  {
    hide Acyclic, Consistent, Guarded, Step;
    if ops != [] {
      var e := Step(d, ops[0]);
      StepConsistent(d, ops[0]);
      StepAcyclic(d, ops[0]);
      if Acyclic(e) {
        RunAcyclic(e, ops[1..]);
      } else {
        assert !AlwaysAcyclic(e, ops[1..]);
      }
    }
  }

  /** So from the empty document. */
  lemma {:induction false} EmptyRunAcyclic(ops: seq<Op>)
    requires AllEnabled(EMPTY, ops)
    ensures AlwaysAcyclic(EMPTY, ops) <==> AllGuarded(EMPTY, ops)
    ensures AllGuarded(EMPTY, ops) ==> Acyclic(Run(EMPTY, ops))
  {
    EmptyConsistent();
    RunAcyclic(EMPTY, ops);
  }
}
