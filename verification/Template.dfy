/** Which identifiers of a template expression become parameters of the generated function (ts/page.js). */
module Template {
  datatype Option<T> = None | Some(value: T)

  /**
   * The nodes of a parsed expression. A `MemberExpression` is a `DotMember` or, if it is computed, an `IndexMember`;
   * `BinaryExpression` is also `LogicalExpression`; `Unsupported` stands for every type the compiler aborts on.
   */
  datatype Node =
    | ObjectExpression(properties: seq<Node>)
    | SpreadElement(argument: Node)
    | ObjectProperty(key: Node, value: Node, computed: bool)
    | Literal(text: string)
    | Identifier(name: string)
    | ConditionalExpression(test: Node, consequent: Node, alternate: Node)
    | UnaryExpression(operator: string, argument: Node)
    | DotMember(object_: Node, property: string)
    | IndexMember(object_: Node, index: Node)
    | BinaryExpression(operator: string, left: Node, right: Node)
    | CallExpression(callee: Node, arguments: seq<Node>)
    | ArrayExpression(elements: seq<Node>)
    | Unsupported

  // ---------------------------------------------------------------- meaning

  /** What the operators of the language do, for any kind of values. */
  datatype Semantics<!V> = Semantics(
    literal: string -> V,
    name: string -> V,
    unary: (string, V) -> V,
    binary: (string, V, V) -> V,
    choose: (V, V, V) -> V,
    member: (V, V) -> V,
    call: (V, seq<V>) -> V,
    spread: V -> V,
    pair: (V, V) -> V,
    object_: seq<V> -> V,
    array_: seq<V> -> V,
    other: V)

  /** The value of an expression. A name behind a dot or before a colon is itself, elsewhere it is looked up. */
  function Value<V>(sem: Semantics<V>, env: string -> V, n: Node): V
    decreases n, 0
  {
    match n
    case ObjectExpression(ps) => sem.object_(Values(sem, env, ps))
    case SpreadElement(a) => sem.spread(Value(sem, env, a))
    case ObjectProperty(k, v, computed) => sem.pair(KeyValue(sem, env, k, computed), Value(sem, env, v))
    case Literal(t) => sem.literal(t)
    case Identifier(x) => env(x)
    case ConditionalExpression(t, c, a) => sem.choose(Value(sem, env, t), Value(sem, env, c), Value(sem, env, a))
    case UnaryExpression(op, a) => sem.unary(op, Value(sem, env, a))
    case DotMember(o, p) => sem.member(Value(sem, env, o), sem.name(p))
    case IndexMember(o, i) => sem.member(Value(sem, env, o), Value(sem, env, i))
    case BinaryExpression(op, l, r) => sem.binary(op, Value(sem, env, l), Value(sem, env, r))
    case CallExpression(f, args) => sem.call(Value(sem, env, f), Values(sem, env, args))
    case ArrayExpression(es) => sem.array_(Values(sem, env, es))
    case Unsupported => sem.other
  }

  function KeyValue<V>(sem: Semantics<V>, env: string -> V, k: Node, computed: bool): V
    decreases k, 1
  {
    if !computed && k.Identifier? then sem.name(k.name) else Value(sem, env, k)
  }

  function Values<V>(sem: Semantics<V>, env: string -> V, ns: seq<Node>): seq<V>
    decreases ns, 0
  {
    if |ns| == 0 then [] else [Value(sem, env, ns[0])] + Values(sem, env, ns[1..])
  }

  // ---------------------------------------------------------------- what the compiler does

  /** The identifier at the bottom of a chain of members. */
  function Root(n: Node): Option<string> {
    match n
    case Identifier(x) => Some(x)
    case DotMember(o, _) => Root(o)
    case IndexMember(o, _) => Root(o)
    case _ => None
  }

  /** The compiler does not abort; `inside` says that it is below a member or in the place of a callee. */
  predicate Accepted(n: Node, inside: bool)
    decreases n, 0
  {
    match n
    case ObjectExpression(ps) => AllAccepted(ps)
    case SpreadElement(a) => Accepted(a, false)
    case ObjectProperty(k, v, _) => (k.Identifier? || Accepted(k, false)) && Accepted(v, false)
    case Literal(_) => true
    case Identifier(_) => true
    case ConditionalExpression(t, c, a) => Accepted(t, false) && Accepted(c, false) && Accepted(a, false)
    case UnaryExpression(_, a) => Accepted(a, false)
    case DotMember(o, _) => (inside || Root(o).Some?) && Accepted(o, true)
    case IndexMember(o, i) => (inside || Root(o).Some?) && Accepted(o, true) && Accepted(i, false)
    case BinaryExpression(_, l, r) => Accepted(l, false) && Accepted(r, false)
    case CallExpression(f, args) => Accepted(f, true) && AllAccepted(args)
    case ArrayExpression(es) => AllAccepted(es)
    case Unsupported => false
  }

  predicate AllAccepted(ns: seq<Node>)
    decreases ns, 0
  {
    |ns| == 0 || (Accepted(ns[0], false) && AllAccepted(ns[1..]))
  }

  /** The first thing done for a chain of members that is not itself inside one. */
  function RootUse(o: Node, inside: bool): seq<string> {
    if !inside && Root(o).Some? then [Root(o).value] else []
  }

  /** The names the compiler collects, in order and with repetitions. */
  function Uses(n: Node, inside: bool): seq<string>
    decreases n, 0
  {
    match n
    case ObjectExpression(ps) => AllUses(ps)
    case SpreadElement(a) => Uses(a, false)
    case ObjectProperty(k, v, _) => (if k.Identifier? then [] else Uses(k, false)) + Uses(v, false)
    case Literal(_) => []
    case Identifier(x) => if inside then [] else [x]
    case ConditionalExpression(t, c, a) => Uses(t, false) + Uses(c, false) + Uses(a, false)
    case UnaryExpression(_, a) => Uses(a, false)
    case DotMember(o, _) => RootUse(o, inside) + Uses(o, true)
    case IndexMember(o, i) => RootUse(o, inside) + Uses(o, true) + Uses(i, false)
    case BinaryExpression(_, l, r) => Uses(l, false) + Uses(r, false)
    case CallExpression(f, args) => Uses(f, true) + AllUses(args)
    case ArrayExpression(es) => AllUses(es)
    case Unsupported => []
  }

  function AllUses(ns: seq<Node>): seq<string>
    decreases ns, 0
  {
    if |ns| == 0 then [] else Uses(ns[0], false) + AllUses(ns[1..])
  }

  // ---------------------------------------------------------------- the compiler as a walk

  /** One call of the compiler: an expression, and whether it is the object of a member or a callee. */
  datatype Call = Call(node: Node, inside: bool)

  function Outside(ns: seq<Node>): (cs: seq<Call>)
    ensures |cs| == |ns| && forall i :: 0 <= i < |ns| ==> cs[i] == Call(ns[i], false)
  {
    seq(|ns|, i requires 0 <= i < |ns| => Call(ns[i], false))
  }

  /** The calls that a call makes, in order. */
  function Calls(c: Call): (cs: seq<Call>)
    ensures forall d <- cs :: d.node < c.node
  {
    match c.node
    case ObjectExpression(ps) => Outside(ps)
    case ArrayExpression(es) => Outside(es)
    case SpreadElement(a) => [Call(a, false)]
    case UnaryExpression(_, a) => [Call(a, false)]
    case ObjectProperty(k, v, _) => (if k.Identifier? then [] else [Call(k, false)]) + [Call(v, false)]
    case ConditionalExpression(t, x, y) => [Call(t, false), Call(x, false), Call(y, false)]
    case BinaryExpression(_, l, r) => [Call(l, false), Call(r, false)]
    case DotMember(o, _) => [Call(o, true)]
    case IndexMember(o, i) => [Call(o, true), Call(i, false)]
    case CallExpression(f, args) => [Call(f, true)] + Outside(args)
    case _ => []
  }

  /** All calls in the course of one. */
  ghost function Made(c: Call): set<Call>
    decreases c.node
  {
    {c} + set d, e | d in Calls(c) && e in Made(d) :: e
  }

  /** What is below a chain of members. */
  function Bottom(n: Node): Node {
    if n.DotMember? || n.IndexMember? then Bottom(n.object_) else n
  }

  /** The two places where the compiler aborts: an unknown kind of expression, and a chain of members on anything but a name. */
  predicate Aborts(c: Call) {
    c.node.Unsupported? || (!c.inside && (c.node.DotMember? || c.node.IndexMember?) && !Bottom(c.node).Identifier?)
  }

  lemma {:induction false} RootIsBottom(n: Node)
    ensures Root(n) == if Bottom(n).Identifier? then Some(Bottom(n).name) else None
  {
    if n.DotMember? || n.IndexMember? { RootIsBottom(n.object_); }
  }

  lemma {:induction false} AllAcceptedIff(ns: seq<Node>)
    ensures AllAccepted(ns) <==> forall d <- Outside(ns) :: Accepted(d.node, d.inside)
  {
    if |ns| > 0 {
      AllAcceptedIff(ns[1..]);
      assert Outside(ns) == [Call(ns[0], false)] + Outside(ns[1..]);
    }
  }

  lemma AcceptedStep(c: Call)
    ensures Accepted(c.node, c.inside) <==> !Aborts(c) && forall d <- Calls(c) :: Accepted(d.node, d.inside)
  {
    RootIsBottom(c.node);
    match c.node
    case ObjectExpression(ps) => AllAcceptedIff(ps);
    case ArrayExpression(es) => AllAcceptedIff(es);
    case CallExpression(f, args) =>
      AllAcceptedIff(args);
      assert Calls(c) == [Call(f, true)] + Outside(args);
    case _ =>
  }

  /** An expression is accepted exactly if no call in the course of compiling it aborts. */
  lemma {:induction false} AcceptedIff(c: Call)
    ensures Accepted(c.node, c.inside) <==> forall d <- Made(c) :: !Aborts(d)
    decreases c.node
  {
    hide Accepted, Aborts, Calls;
    AcceptedStep(c);
    forall d | d in Calls(c) ensures Accepted(d.node, d.inside) <==> forall e <- Made(d) :: !Aborts(e) {
      AcceptedIff(d);
    }
  }

  /** What a call collects itself, before the calls that it makes. */
  function Own(c: Call): seq<string> {
    if c.inside then []
    else
      match c.node
      case Identifier(x) => [x]
      case _ => if (c.node.DotMember? || c.node.IndexMember?) && Bottom(c.node).Identifier? then [Bottom(c.node).name] else []
  }

  function UsesOf(cs: seq<Call>): seq<string> {
    if |cs| == 0 then [] else Uses(cs[0].node, cs[0].inside) + UsesOf(cs[1..])
  }

  lemma {:induction false} AllUsesInOrder(ns: seq<Node>)
    ensures AllUses(ns) == UsesOf(Outside(ns))
  {
    if |ns| > 0 {
      assert Outside(ns)[1..] == Outside(ns[1..]);
      AllUsesInOrder(ns[1..]);
    }
  }

  lemma UsesOfFew(d: Call, cs: seq<Call>)
    ensures UsesOf([d]) == Uses(d.node, d.inside) && UsesOf([d] + cs) == Uses(d.node, d.inside) + UsesOf(cs)
  {
    assert ([d] + cs)[1..] == cs && [d][1..] == [];
  }

  lemma UsesOfNone()
    ensures UsesOf([]) == []
  {
  }

  lemma UsesOfTwo(d: Call, e: Call)
    ensures UsesOf([d, e]) == Uses(d.node, d.inside) + Uses(e.node, e.inside)
  {
    UsesOfFew(d, [e]);
    UsesOfFew(e, []);
    assert [d] + [e] == [d, e];
  }

  lemma UsesOfThree(d: Call, e: Call, f: Call)
    ensures UsesOf([d, e, f]) == Uses(d.node, d.inside) + Uses(e.node, e.inside) + Uses(f.node, f.inside)
  {
    hide Uses, UsesOf;
    UsesOfFew(d, [e, f]);
    UsesOfTwo(e, f);
    assert [d] + [e, f] == [d, e, f];
  }

  /** Names are collected in the order of the calls: first what a call collects itself, then what those it makes do. */
  lemma UsesInOrder(c: Call)
    ensures Uses(c.node, c.inside) == Own(c) + UsesOf(Calls(c))
  {
    hide UsesOf, Outside;
    RootIsBottom(c.node);
    UsesOfNone();
    match c.node
    case ObjectExpression(ps) => AllUsesInOrder(ps);
    case ArrayExpression(es) => AllUsesInOrder(es);
    case SpreadElement(a) => UsesOfFew(Call(a, false), []);
    case UnaryExpression(_, a) => UsesOfFew(Call(a, false), []);
    case ObjectProperty(k, v, _) =>
      UsesOfFew(Call(v, false), []);
      UsesOfTwo(Call(k, false), Call(v, false));
      assert Calls(c) == if k.Identifier? then [Call(v, false)] else [Call(k, false), Call(v, false)];
    case ConditionalExpression(t, x, y) => UsesOfThree(Call(t, false), Call(x, false), Call(y, false));
    case BinaryExpression(_, l, r) => UsesOfTwo(Call(l, false), Call(r, false));
    case DotMember(o, _) => UsesOfFew(Call(o, true), []);
    case IndexMember(o, i) => UsesOfTwo(Call(o, true), Call(i, false));
    case CallExpression(f, args) =>
      AllUsesInOrder(args);
      UsesOfFew(Call(f, true), Outside(args));
    case _ =>
  }

  // ---------------------------------------------------------------- what the value depends on

  /** The names an expression looks up. */
  function Names(n: Node): set<string>
    decreases n, 0
  {
    match n
    case ObjectExpression(ps) => AllNames(ps)
    case SpreadElement(a) => Names(a)
    case ObjectProperty(k, v, computed) => KeyNames(k, computed) + Names(v)
    case Literal(_) => {}
    case Identifier(x) => {x}
    case ConditionalExpression(t, c, a) => Names(t) + Names(c) + Names(a)
    case UnaryExpression(_, a) => Names(a)
    case DotMember(o, _) => Names(o)
    case IndexMember(o, i) => Names(o) + Names(i)
    case BinaryExpression(_, l, r) => Names(l) + Names(r)
    case CallExpression(f, args) => Names(f) + AllNames(args)
    case ArrayExpression(es) => AllNames(es)
    case Unsupported => {}
  }

  function KeyNames(k: Node, computed: bool): set<string>
    decreases k, 1
  {
    if !computed && k.Identifier? then {} else Names(k)
  }

  function AllNames(ns: seq<Node>): set<string>
    decreases ns, 0
  {
    if |ns| == 0 then {} else Names(ns[0]) + AllNames(ns[1..])
  }

  ghost predicate Agree<V(!new)>(e1: string -> V, e2: string -> V, names: set<string>) {
    forall x <- names :: e1(x) == e2(x)
  }

  lemma {:induction false} ValueNames<V(!new)>(sem: Semantics<V>, e1: string -> V, e2: string -> V, n: Node)
    requires Agree(e1, e2, Names(n))
    ensures Value(sem, e1, n) == Value(sem, e2, n)
    decreases n, 0
  {
    match n {
      case ObjectExpression(ps) => ValuesNames(sem, e1, e2, ps);
      case SpreadElement(a) => ValueNames(sem, e1, e2, a);
      case ObjectProperty(k, v, computed) =>
        KeyValueNames(sem, e1, e2, k, computed);
        ValueNames(sem, e1, e2, v);
      case Literal(_) =>
      case Identifier(x) => assert x in Names(n);
      case ConditionalExpression(t, c, a) =>
        ValueNames(sem, e1, e2, t);
        ValueNames(sem, e1, e2, c);
        ValueNames(sem, e1, e2, a);
      case UnaryExpression(_, a) => ValueNames(sem, e1, e2, a);
      case DotMember(o, _) => ValueNames(sem, e1, e2, o);
      case IndexMember(o, i) =>
        ValueNames(sem, e1, e2, o);
        ValueNames(sem, e1, e2, i);
      case BinaryExpression(_, l, r) =>
        ValueNames(sem, e1, e2, l);
        ValueNames(sem, e1, e2, r);
      case CallExpression(f, args) =>
        ValueNames(sem, e1, e2, f);
        ValuesNames(sem, e1, e2, args);
      case ArrayExpression(es) => ValuesNames(sem, e1, e2, es);
      case Unsupported =>
    }
  }

  lemma {:induction false} KeyValueNames<V(!new)>(sem: Semantics<V>, e1: string -> V, e2: string -> V, k: Node, computed: bool)
    requires Agree(e1, e2, KeyNames(k, computed))
    ensures KeyValue(sem, e1, k, computed) == KeyValue(sem, e2, k, computed)
    decreases k, 1
  {
    if computed || !k.Identifier? { ValueNames(sem, e1, e2, k); }
  }

  lemma {:induction false} ValuesNames<V(!new)>(sem: Semantics<V>, e1: string -> V, e2: string -> V, ns: seq<Node>)
    requires Agree(e1, e2, AllNames(ns))
    ensures Values(sem, e1, ns) == Values(sem, e2, ns)
    decreases ns, 0
  {
    if |ns| > 0 {
      ValueNames(sem, e1, e2, ns[0]);
      ValuesNames(sem, e1, e2, ns[1..]);
    }
  }

  // ---------------------------------------------------------------- what is collected, and what is not

  /** Names that are looked up but never collected: the roots of callees, and identifiers in computed keys. */
  function Overlooked(n: Node, callees: bool, keys: bool): set<string>
    decreases n, 0
  {
    match n
    case ObjectExpression(ps) => AllOverlooked(ps, callees, keys)
    case SpreadElement(a) => Overlooked(a, callees, keys)
    case ObjectProperty(k, v, computed) =>
      (if !k.Identifier? then Overlooked(k, callees, keys) else if computed && keys then {k.name} else {})
      + Overlooked(v, callees, keys)
    case Literal(_) => {}
    case Identifier(_) => {}
    case ConditionalExpression(t, c, a) =>
      Overlooked(t, callees, keys) + Overlooked(c, callees, keys) + Overlooked(a, callees, keys)
    case UnaryExpression(_, a) => Overlooked(a, callees, keys)
    case DotMember(o, _) => Overlooked(o, callees, keys)
    case IndexMember(o, i) => Overlooked(o, callees, keys) + Overlooked(i, callees, keys)
    case BinaryExpression(_, l, r) => Overlooked(l, callees, keys) + Overlooked(r, callees, keys)
    case CallExpression(f, args) =>
      (if callees then RootSet(f) else {}) + Overlooked(f, callees, keys) + AllOverlooked(args, callees, keys)
    case ArrayExpression(es) => AllOverlooked(es, callees, keys)
    case Unsupported => {}
  }

  function AllOverlooked(ns: seq<Node>, callees: bool, keys: bool): set<string>
    decreases ns, 0
  {
    if |ns| == 0 then {} else Overlooked(ns[0], callees, keys) + AllOverlooked(ns[1..], callees, keys)
  }

  function RootSet(n: Node): set<string> {
    if Root(n).Some? then {Root(n).value} else {}
  }

  function Set(s: seq<string>): set<string> {
    set x | x in s
  }

  lemma SetConcat(a: seq<string>, b: seq<string>)
    ensures Set(a + b) == Set(a) + Set(b)
  {
  }

  /** A name is looked up exactly if it is collected or overlooked; inside a member chain the root comes on top. */
  predicate Collected(n: Node, inside: bool) {
    Names(n) == Set(Uses(n, inside)) + Overlooked(n, true, true) + if inside then RootSet(n) else {}
  }

  lemma PropertyCollected(k: Node, v: Node, computed: bool, inside: bool)
    requires Collected(v, false) && (k.Identifier? || Collected(k, false))
    ensures Collected(ObjectProperty(k, v, computed), inside)
  {
    var n := ObjectProperty(k, v, computed);
    var uses := if k.Identifier? then [] else Uses(k, false);
    SetConcat(uses, Uses(v, false));
    assert Names(n) == KeyNames(k, computed) + Names(v);
    if k.Identifier? {
      assert Set(uses) == {};
      IdentifierNames(k);
    }
  }

  lemma ConditionalCollected(t: Node, c: Node, a: Node, inside: bool)
    requires Collected(t, false) && Collected(c, false) && Collected(a, false)
    ensures Collected(ConditionalExpression(t, c, a), inside)
  {
    SetConcat(Uses(t, false), Uses(c, false));
    SetConcat(Uses(t, false) + Uses(c, false), Uses(a, false));
  }

  lemma IndexCollected(o: Node, i: Node, inside: bool)
    requires Collected(o, true) && Collected(i, false)
    ensures Collected(IndexMember(o, i), inside)
  {
    SetConcat(RootUse(o, inside), Uses(o, true));
    SetConcat(RootUse(o, inside) + Uses(o, true), Uses(i, false));
    assert Set(RootUse(o, inside)) == if inside then {} else RootSet(o);
  }

  lemma DotCollected(o: Node, key: string, inside: bool)
    requires Collected(o, true)
    ensures Collected(DotMember(o, key), inside)
  {
    SetConcat(RootUse(o, inside), Uses(o, true));
    assert Set(RootUse(o, inside)) == if inside then {} else RootSet(o);
  }

  lemma BinaryCollected(op: string, l: Node, r: Node, inside: bool)
    requires Collected(l, false) && Collected(r, false)
    ensures Collected(BinaryExpression(op, l, r), inside)
  {
    SetConcat(Uses(l, false), Uses(r, false));
  }

  lemma CallCollected(f: Node, args: seq<Node>, inside: bool)
    requires Collected(f, true)
    requires AllNames(args) == Set(AllUses(args)) + AllOverlooked(args, true, true)
    ensures Collected(CallExpression(f, args), inside)
  {
    SetConcat(Uses(f, true), AllUses(args));
  }

  lemma IdentifierNames(k: Node)
    requires k.Identifier?
    ensures Names(k) == {k.name}
  {
  }

  lemma {:induction false} NamesCollected(n: Node, inside: bool)
    requires Accepted(n, inside)
    ensures Collected(n, inside)
    decreases n, 0
  {
    match n {
      case ObjectExpression(ps) => AllCollected(ps);
      case SpreadElement(a) => NamesCollected(a, false);
      case ObjectProperty(k, v, computed) =>
        NamesCollected(v, false);
        if !k.Identifier? { NamesCollected(k, false); }
        PropertyCollected(k, v, computed, inside);
      case Literal(_) =>
      case Identifier(_) =>
      case ConditionalExpression(t, c, a) =>
        NamesCollected(t, false);
        NamesCollected(c, false);
        NamesCollected(a, false);
        ConditionalCollected(t, c, a, inside);
      case UnaryExpression(_, a) => NamesCollected(a, false);
      case DotMember(o, _) =>
        NamesCollected(o, true);
        DotCollected(o, n.property, inside);
      case IndexMember(o, i) =>
        NamesCollected(o, true);
        NamesCollected(i, false);
        IndexCollected(o, i, inside);
      case BinaryExpression(_, l, r) =>
        NamesCollected(l, false);
        NamesCollected(r, false);
        BinaryCollected(n.operator, l, r, inside);
      case CallExpression(f, args) =>
        NamesCollected(f, true);
        AllCollected(args);
        CallCollected(f, args, inside);
      case ArrayExpression(es) => AllCollected(es);
      case Unsupported =>
    }
  }

  lemma {:induction false} AllCollected(ns: seq<Node>)
    requires AllAccepted(ns)
    ensures AllNames(ns) == Set(AllUses(ns)) + AllOverlooked(ns, true, true)
    decreases ns, 0
  {
    if |ns| > 0 {
      NamesCollected(ns[0], false);
      AllCollected(ns[1..]);
      SetConcat(Uses(ns[0], false), AllUses(ns[1..]));
    }
  }

  lemma {:induction false} OverlookedParts(n: Node)
    ensures Overlooked(n, true, true) == Overlooked(n, true, false) + Overlooked(n, false, true)
    decreases n, 0
  {
    match n {
      case ObjectExpression(ps) => AllOverlookedParts(ps);
      case SpreadElement(a) => OverlookedParts(a);
      case ObjectProperty(k, v, _) =>
        OverlookedParts(k);
        OverlookedParts(v);
      case Literal(_) =>
      case Identifier(_) =>
      case ConditionalExpression(t, c, a) =>
        OverlookedParts(t);
        OverlookedParts(c);
        OverlookedParts(a);
      case UnaryExpression(_, a) => OverlookedParts(a);
      case DotMember(o, _) => OverlookedParts(o);
      case IndexMember(o, i) =>
        OverlookedParts(o);
        OverlookedParts(i);
      case BinaryExpression(_, l, r) =>
        OverlookedParts(l);
        OverlookedParts(r);
      case CallExpression(f, args) =>
        OverlookedParts(f);
        AllOverlookedParts(args);
      case ArrayExpression(es) => AllOverlookedParts(es);
      case Unsupported =>
    }
  }

  lemma {:induction false} AllOverlookedParts(ns: seq<Node>)
    ensures AllOverlooked(ns, true, true) == AllOverlooked(ns, true, false) + AllOverlooked(ns, false, true)
    decreases ns, 0
  {
    if |ns| > 0 {
      OverlookedParts(ns[0]);
      AllOverlookedParts(ns[1..]);
    }
  }

  function CalleeRoots(n: Node): set<string> {
    Overlooked(n, true, false)
  }

  function ComputedKeys(n: Node): set<string> {
    Overlooked(n, false, true)
  }

  /** The two places where a name is looked up that the compiler does not collect. */
  predicate Misses(c: Call, x: string, callees: bool, keys: bool) {
    || (callees && c.node.CallExpression? && Bottom(c.node.callee) == Identifier(x))
    || (keys && c.node.ObjectProperty? && c.node.computed && c.node.key == Identifier(x))
  }

  lemma {:induction false} AllOverlookedIn(ns: seq<Node>, x: string, callees: bool, keys: bool)
    ensures x in AllOverlooked(ns, callees, keys) <==> exists d <- Outside(ns) :: x in Overlooked(d.node, callees, keys)
  {
    if |ns| > 0 {
      AllOverlookedIn(ns[1..], x, callees, keys);
      assert Outside(ns) == [Call(ns[0], false)] + Outside(ns[1..]);
      assert Call(ns[0], false) in Outside(ns);
    }
  }

  lemma OverlookedStep(c: Call, x: string, callees: bool, keys: bool)
    ensures x in Overlooked(c.node, callees, keys)
      <==> Misses(c, x, callees, keys) || exists d <- Calls(c) :: x in Overlooked(d.node, callees, keys)
  {
    var cs := Calls(c);
    assert forall d <- cs :: d in cs;
    match c.node
    case ObjectExpression(ps) => AllOverlookedIn(ps, x, callees, keys);
    case ArrayExpression(es) => AllOverlookedIn(es, x, callees, keys);
    case CallExpression(f, args) =>
      RootIsBottom(f);
      AllOverlookedIn(args, x, callees, keys);
      assert Call(f, true) in cs && forall d <- Outside(args) :: d in cs;
    case ObjectProperty(k, v, _) => assert Call(v, false) in cs && (!k.Identifier? ==> Call(k, false) in cs);
    case ConditionalExpression(t, y, z) => assert Call(t, false) in cs && Call(y, false) in cs && Call(z, false) in cs;
    case BinaryExpression(_, l, r) => assert Call(l, false) in cs && Call(r, false) in cs;
    case IndexMember(o, i) => assert Call(o, true) in cs && Call(i, false) in cs;
    case DotMember(o, _) => assert Call(o, true) in cs;
    case SpreadElement(a) => assert Call(a, false) in cs;
    case UnaryExpression(_, a) => assert Call(a, false) in cs;
    case _ =>
  }

  lemma {:induction false} OverlookedWhere(c: Call, x: string, callees: bool, keys: bool)
    ensures x in Overlooked(c.node, callees, keys) <==> exists d <- Made(c) :: Misses(d, x, callees, keys)
    decreases c.node
  {
    hide Overlooked, Misses, Calls;
    OverlookedStep(c, x, callees, keys);
    assert c in Made(c);
    forall d | d in Calls(c)
      ensures x in Overlooked(d.node, callees, keys) <==> exists e <- Made(d) :: Misses(e, x, callees, keys)
    {
      OverlookedWhere(d, x, callees, keys);
    }
  }

  /** Callee roots are the names at the bottom of what is called, anywhere in the expression. */
  lemma CalleeRootsAre(n: Node, x: string)
    ensures x in CalleeRoots(n)
      <==> exists d <- Made(Call(n, false)) :: d.node.CallExpression? && Bottom(d.node.callee) == Identifier(x)
  {
    hide Overlooked, Made;
    OverlookedWhere(Call(n, false), x, true, false);
  }

  /** Computed keys are the names in brackets before a colon. */
  lemma ComputedKeysAre(n: Node, x: string)
    ensures x in ComputedKeys(n)
      <==> exists d <- Made(Call(n, false)) :: d.node.ObjectProperty? && d.node.computed && d.node.key == Identifier(x)
  {
    hide Overlooked, Made;
    OverlookedWhere(Call(n, false), x, false, true);
  }

  // ---------------------------------------------------------------- the accumulators

  /** What every object inherits from `Object.prototype`; looking such a name up in an empty object finds something. */
  const INHERITED: set<string> := {
    "constructor", "toString", "toLocaleString", "valueOf", "hasOwnProperty", "isPrototypeOf", "propertyIsEnumerable",
    "__proto__", "__defineGetter__", "__defineSetter__", "__lookupGetter__", "__lookupSetter__"}

  /** The names of `uses` that are new, each once and in order. */
  function Gather(known: seq<string>, uses: seq<string>): seq<string>
    decreases |uses|
  {
    if |uses| == 0 then known
    else if uses[0] in known || uses[0] in INHERITED then Gather(known, uses[1..])
    else Gather(known + [uses[0]], uses[1..])
  }

  lemma {:induction false} GatherConcat(known: seq<string>, a: seq<string>, b: seq<string>)
    ensures Gather(known, a + b) == Gather(Gather(known, a), b)
    decreases |a|
  {
    hide INHERITED;
    if |a| == 0 {
      assert a + b == b;
    } else {
      assert (a + b)[1..] == a[1..] + b;
      GatherConcat(if a[0] in known || a[0] in INHERITED then known else known + [a[0]], a[1..], b);
    }
  }

  lemma GatherNone(known: seq<string>)
    ensures Gather(known, []) == known
  {
  }

  predicate NoDuplicates(s: seq<string>) {
    forall i, j {:trigger s[i], s[j]} :: 0 <= i < j < |s| ==> s[i] != s[j]
  }

  /** Gathering yields no name twice, and all names but the inherited ones. */
  lemma {:induction false} GatherSet(known: seq<string>, uses: seq<string>)
    requires NoDuplicates(known)
    ensures NoDuplicates(Gather(known, uses))
    ensures Set(Gather(known, uses)) == Set(known) + (Set(uses) - INHERITED)
    decreases |uses|
  {
    hide INHERITED;
    if |uses| > 0 {
      var known' := if uses[0] in known || uses[0] in INHERITED then known else known + [uses[0]];
      assert NoDuplicates(known');
      assert Gather(known, uses) == Gather(known', uses[1..]);
      hide Gather, NoDuplicates;
      GatherSet(known', uses[1..]);
      assert Set(uses) == {uses[0]} + Set(uses[1..]) by { assert uses == [uses[0]] + uses[1..]; }
      SetConcat(known, [uses[0]]);
      assert Set([uses[0]]) == {uses[0]};
    }
  }

  /** Names are listed in the order of their first use: what the first uses yield is the beginning of the list. */
  lemma {:induction false} GatherInOrder(known: seq<string>, uses: seq<string>, i: nat)
    requires i <= |uses|
    ensures Gather(known, uses[..i]) <= Gather(known, uses)
    decreases |uses|
  {
    hide INHERITED;
    if i > 0 {
      assert uses[..i][1..] == uses[1..][..i - 1];
      GatherInOrder(if uses[0] in known || uses[0] in INHERITED then known else known + [uses[0]], uses[1..], i - 1);
    } else {
      GatherExtends(known, uses);
    }
  }

  lemma {:induction false} GatherExtends(known: seq<string>, uses: seq<string>)
    ensures known <= Gather(known, uses)
    decreases |uses|
  {
    hide INHERITED;
    if |uses| > 0 {
      GatherExtends(if uses[0] in known || uses[0] in INHERITED then known else known + [uses[0]], uses[1..]);
    }
  }

  /** `keys`, `keySet` and `keyMap`. */
  class Collector {
    var keys: seq<seq<string>>
    var keySet: seq<string>
    var keyMap: map<string, bool>

    ghost predicate Valid()
      reads this
    {
      && NoDuplicates(keySet)
      && keyMap.Keys == Set(keySet)
      && |keys| == |keySet| && forall i :: 0 <= i < |keys| ==> keys[i] == [keySet[i]]
    }

    constructor ()
      ensures Valid() && keySet == []
    {
      keys, keySet, keyMap := [], [], map[];
    }

    /** `if(!keyMap[name]) { ... }`: names that every object inherits count as known. */
    method Collect(name: string)
      requires Valid()
      modifies this
      ensures Valid() && keySet == Gather(old(keySet), [name])
    {
      hide INHERITED;
      if !(name in keyMap || name in INHERITED) {
        keyMap := keyMap[name := true];
        SetConcat(keySet, [name]);
        assert Set([name]) == {name};
        keySet := keySet + [name];
        keys := keys + [[name]];
      }
    }

    /** The walk down a chain of members to its root, which has to be an identifier. */
    method CollectRoot(o: Node, inside: bool) returns (accepted: bool)
      requires Valid()
      modifies this
      ensures accepted <==> inside || Root(o).Some?
      ensures accepted ==> Valid() && keySet == Gather(old(keySet), RootUse(o, inside))
    {
      hide Valid, INHERITED;
      accepted := true;
      if !inside {
        var p := o;
        while p.DotMember? || p.IndexMember?
          invariant Root(p) == Root(o)
          decreases p
        {
          p := p.object_;
        }
        if p.Identifier? {
          Collect(p.name);
        } else {
          accepted := false;
        }
      }
    }

    method CompileTwo(a: Node, inside: bool, b: Node, ghost n: Node) returns (accepted: bool)
      requires Valid() && a < n && b < n
      modifies this
      ensures accepted <==> Accepted(a, inside) && Accepted(b, false)
      ensures accepted ==> Valid() && keySet == Gather(old(keySet), Uses(a, inside) + Uses(b, false))
      decreases n, 0
    {
      hide *;
      ghost var known := keySet;
      accepted := CompileCode(a, inside);
      if accepted {
        accepted := CompileCode(b, false);
        GatherConcat(known, Uses(a, inside), Uses(b, false));
      }
    }

    method CompileAll(ns: seq<Node>) returns (accepted: bool)
      requires Valid()
      modifies this
      ensures accepted <==> AllAccepted(ns)
      ensures accepted ==> Valid() && keySet == Gather(old(keySet), AllUses(ns))
      decreases ns, 0
    {
      hide Gather, Valid, INHERITED, Accepted, Uses;
      ghost var known := keySet;
      accepted := true;
      assert ns[0..] == ns;
      var i := 0;
      while i < |ns| && accepted
        invariant 0 <= i <= |ns|
        invariant accepted ==> Valid() && Gather(keySet, AllUses(ns[i..])) == Gather(known, AllUses(ns))
        invariant AllAccepted(ns) <==> accepted && AllAccepted(ns[i..])
        decreases |ns| - i
      {
        ghost var before := keySet;
        assert ns[i..][0] == ns[i] && ns[i..][1..] == ns[i + 1..];
        accepted := CompileCode(ns[i], false);
        GatherConcat(before, Uses(ns[i], false), AllUses(ns[i + 1..]));
        i := i + 1;
      }
      if accepted {
        assert ns[i..] == [];
        GatherNone(keySet);
      }
    }

    /** `compileCode`, without the text it returns; the result is false where the compiler aborts. */
    method CompileCode(n: Node, inside: bool) returns (accepted: bool)
      requires Valid()
      modifies this
      ensures accepted <==> Accepted(n, inside)
      ensures accepted ==> Valid() && keySet == Gather(old(keySet), Uses(n, inside))
      decreases n, 1
    {
      hide Gather, Valid, INHERITED;
      ghost var known := keySet;
      match n {
        case ObjectExpression(ps) => accepted := CompileAll(ps);
        case SpreadElement(a) => accepted := CompileCode(a, false);
        case ObjectProperty(k, v, _) =>
          if k.Identifier? {
            assert Uses(n, inside) == Uses(v, false);
            accepted := CompileCode(v, false);
          } else {
            accepted := CompileTwo(k, false, v, n);
          }
        case Literal(_) =>
          GatherNone(known);
          accepted := true;
        case Identifier(x) =>
          GatherNone(known);
          if !inside {
            Collect(x);
          }
          accepted := true;
        case ConditionalExpression(t, c, a) =>
          accepted := CompileTwo(t, false, c, n);
          if accepted {
            accepted := CompileCode(a, false);
            GatherConcat(known, Uses(t, false) + Uses(c, false), Uses(a, false));
          }
        case UnaryExpression(_, a) => accepted := CompileCode(a, false);
        case DotMember(o, _) =>
          accepted := CollectRoot(o, inside);
          if accepted {
            accepted := CompileCode(o, true);
            GatherConcat(known, RootUse(o, inside), Uses(o, true));
          }
        case IndexMember(o, i) =>
          accepted := CollectRoot(o, inside);
          if accepted {
            accepted := CompileTwo(o, true, i, n);
            GatherConcat(known, RootUse(o, inside), Uses(o, true) + Uses(i, false));
            assert RootUse(o, inside) + Uses(o, true) + Uses(i, false) == RootUse(o, inside) + (Uses(o, true) + Uses(i, false));
          }
        case BinaryExpression(_, l, r) => accepted := CompileTwo(l, false, r, n);
        case CallExpression(f, args) =>
          accepted := CompileCode(f, true);
          if accepted {
            accepted := CompileAll(args);
            GatherConcat(known, Uses(f, true), AllUses(args));
          }
        case ArrayExpression(es) => accepted := CompileAll(es);
        case Unsupported => accepted := false;
      }
    }
  }

  // ---------------------------------------------------------------- dependency soundness

  /** The parameters of the generated function. */
  function Parameters(n: Node): seq<string> {
    Gather([], Uses(n, false))
  }

  /** The expressions of one attribute share the list; together they are compiled like an array of them. */
  method CompileAttribute(es: seq<Node>) returns (r: Option<seq<string>>)
    ensures r.Some? <==> Accepted(ArrayExpression(es), false)
    ensures r.Some? ==> r.value == Parameters(ArrayExpression(es)) && NoDuplicates(r.value)
  {
    hide INHERITED;
    var c := new Collector();
    var accepted := c.CompileAll(es);
    r := if accepted then Some(c.keySet) else None;
  }

  /** The names of an accepted expression are its parameters, its callee roots, and what it overlooks. */
  lemma NamesOfExpression(n: Node)
    requires Accepted(n, false)
    ensures Names(n) - INHERITED - CalleeRoots(n) - ComputedKeys(n) <= Set(Parameters(n)) <= Names(n)
    ensures Names(n) <= Set(Parameters(n)) + INHERITED + CalleeRoots(n) + ComputedKeys(n)
  {
    hide INHERITED, Names, Uses, Gather, Overlooked;
    NamesCollected(n, false);
    OverlookedParts(n);
    GatherSet([], Uses(n, false));
  }

  /** Computed keys and inherited names are among the parameters and the callee roots. */
  predicate Covered(n: Node) {
    ComputedKeys(n) + Names(n) * INHERITED <= Set(Parameters(n)) + CalleeRoots(n)
  }

  /** Then the value of an expression depends on its parameters and its callee roots alone. */
  lemma DependencySound<V(!new)>(sem: Semantics<V>, e1: string -> V, e2: string -> V, n: Node)
    requires Accepted(n, false) && Covered(n)
    requires Agree(e1, e2, Set(Parameters(n)) + CalleeRoots(n))
    ensures Value(sem, e1, n) == Value(sem, e2, n)
  {
    hide INHERITED, Names, Uses, Gather, Overlooked, Value;
    NamesOfExpression(n);
    assert Names(n) <= Set(Parameters(n)) + CalleeRoots(n);
    ValueNames(sem, e1, e2, n);
  }

  // ---------------------------------------------------------------- and nothing less will do

  /** A semantics in which a value is the set of what it was made of: it tells any two lookups apart. */
  function Tracing(): Semantics<set<string>> {
    Semantics(_ => {}, _ => {}, (_, a) => a, (_, a, b) => a + b, (a, b, c) => a + b + c, (a, b) => a + b,
              (f, args) => f + Union(args), a => a, (a, b) => a + b, Union, Union, {})
  }

  function Union(vs: seq<set<string>>): set<string> {
    if |vs| == 0 then {} else vs[0] + Union(vs[1..])
  }

  function Only(names: set<string>): string -> set<string> {
    x => if x in names then {x} else {}
  }

  lemma {:induction false} TracingNames(n: Node, s: set<string>)
    ensures Traced(n, s)
    decreases n, 0
  {
    hide Traced;
    match n {
      case ObjectExpression(ps) =>
        TracingAll(ps, s);
        TracingLists(ps, s);
      case SpreadElement(a) =>
        TracingNames(a, s);
        TracingInner(a, "", s);
      case ObjectProperty(k, v, computed) =>
        TracingNames(k, s);
        TracingNames(v, s);
        TracingPair(k, v, computed, s);
      case Literal(_) => TracingLeaf(n, s);
      case Identifier(_) => TracingLeaf(n, s);
      case ConditionalExpression(t, c, a) =>
        TracingNames(t, s);
        TracingNames(c, s);
        TracingNames(a, s);
        TracingChoice(t, c, a, s);
      case UnaryExpression(op, a) =>
        TracingNames(a, s);
        TracingInner(a, op, s);
      case DotMember(o, p) =>
        TracingNames(o, s);
        TracingInner(o, p, s);
      case IndexMember(o, i) =>
        TracingNames(o, s);
        TracingNames(i, s);
        TracingIndex(o, i, s);
      case BinaryExpression(_, l, r) =>
        TracingNames(l, s);
        TracingNames(r, s);
        TracingBinary(n.operator, l, r, s);
      case CallExpression(f, args) =>
        TracingNames(f, s);
        TracingAll(args, s);
        TracingCall(f, args, s);
      case ArrayExpression(es) =>
        TracingAll(es, s);
        TracingLists(es, s);
      case Unsupported => TracingLeaf(n, s);
    }
  }

  /** Looking up `names`, this expression looks up those of them that it names. */
  predicate Traced(n: Node, s: set<string>) {
    Value(Tracing(), Only(s), n) == Names(n) * s
  }

  lemma TracingLeaf(n: Node, s: set<string>)
    requires n.Literal? || n.Identifier? || n.Unsupported?
    ensures Traced(n, s)
  {
  }

  lemma TracingInner(a: Node, word: string, s: set<string>)
    requires Traced(a, s)
    ensures Traced(SpreadElement(a), s) && Traced(UnaryExpression(word, a), s) && Traced(DotMember(a, word), s)
  {
  }

  lemma TracingLists(ns: seq<Node>, s: set<string>)
    requires Union(Values(Tracing(), Only(s), ns)) == AllNames(ns) * s
    ensures Traced(ObjectExpression(ns), s) && Traced(ArrayExpression(ns), s)
  {
    hide Union, Values, AllNames;
    var vs := Values(Tracing(), Only(s), ns);
    assert Tracing().object_(vs) == Union(vs) == Tracing().array_(vs);
  }

  lemma TracingChoice(t: Node, c: Node, a: Node, s: set<string>)
    requires Traced(t, s) && Traced(c, s) && Traced(a, s)
    ensures Traced(ConditionalExpression(t, c, a), s)
  {
  }

  lemma TracingIndex(o: Node, i: Node, s: set<string>)
    requires Traced(o, s) && Traced(i, s)
    ensures Traced(IndexMember(o, i), s)
  {
  }

  lemma TracingBinary(operator: string, l: Node, r: Node, s: set<string>)
    requires Traced(l, s) && Traced(r, s)
    ensures Traced(BinaryExpression(operator, l, r), s)
  {
  }

  lemma TracingCall(f: Node, args: seq<Node>, s: set<string>)
    requires Traced(f, s) && Union(Values(Tracing(), Only(s), args)) == AllNames(args) * s
    ensures Traced(CallExpression(f, args), s)
  {
    var n := CallExpression(f, args);
    assert Value(Tracing(), Only(s), n) == Value(Tracing(), Only(s), f) + Union(Values(Tracing(), Only(s), args));
    assert Names(n) == Names(f) + AllNames(args);
  }

  lemma TracingPair(k: Node, v: Node, computed: bool, s: set<string>)
    requires Traced(k, s) && Traced(v, s)
    ensures Traced(ObjectProperty(k, v, computed), s)
  {
    var n := ObjectProperty(k, v, computed);
    assert Names(n) == KeyNames(k, computed) + Names(v);
    assert KeyValue(Tracing(), Only(s), k, computed) == KeyNames(k, computed) * s;
  }

  lemma {:induction false} TracingAll(ns: seq<Node>, s: set<string>)
    ensures Union(Values(Tracing(), Only(s), ns)) == AllNames(ns) * s
    decreases ns, 0
  {
    if |ns| > 0 {
      TracingNames(ns[0], s);
      TracingAll(ns[1..], s);
      assert Values(Tracing(), Only(s), ns)[1..] == Values(Tracing(), Only(s), ns[1..]);
    }
  }

  /** If they are not, two environments agree on parameters and callee roots and still give different values. */
  lemma DependencyUnsound(n: Node)
    requires Accepted(n, false) && !Covered(n)
    ensures
      var s := Set(Parameters(n)) + CalleeRoots(n);
      && Agree(Only(s), Only(s + Names(n)), s)
      && Value(Tracing(), Only(s), n) != Value(Tracing(), Only(s + Names(n)), n)
  {
    hide INHERITED, Names, Uses, Gather, Overlooked, Value;
    var s := Set(Parameters(n)) + CalleeRoots(n);
    NamesCollected(n, false);
    OverlookedParts(n);
    TracingNames(n, s);
    TracingNames(n, s + Names(n));
    var x :| x in ComputedKeys(n) + Names(n) * INHERITED && x !in s;
    assert x in Names(n) * (s + Names(n)) && x !in Names(n) * s;
  }
}
