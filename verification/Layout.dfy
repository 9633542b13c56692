/** The flex and horizontal layouts of document/LayoutElement.cc, which write the frames of the children in place. */
module Layouts {
  import opened Flow

  // ---------------------------------------------------------------- lengths

  /** A length that may be `Unit::Auto`. */
  datatype Length = Auto | Px(value: real)

  /** The largest float, which stands for `Unit::Auto` when a percentage is taken of it. */
  const AUTO: real := 340282346638528859811704183484516925440.0

  /** Twenty-four bits at the top of the range of exponents. */
  lemma LargestFloat()
    ensures var k := 16777216.0; AUTO == (k - 1.0) * (256.0 * k) * (256.0 * k) * (256.0 * k) * 256.0
  {
  }

  function Number(l: Length): real {
    if l.Auto? then AUTO else l.value
  }

  /** Taking paddings and margins away from the largest float leaves it as it is. */
  function Less(l: Length, d: real): Length {
    if l.Auto? then Auto else Px(l.value - d)
  }

  datatype Pixel = Pixel(value: real, name: string)

  datatype Unit = Unit(scale: real, rate: real)

  datatype Edge = Edge(top: Pixel, right: Pixel, bottom: Pixel, left: Pixel)

  /** `LayoutContext::value`. */
  function Value(units: map<string, Unit>, p: Pixel, base: Length, default: Length): (r: Length)
    ensures default.Px? ==> r.Px?
  {
    if p.name == "auto" then default
    else if p.name !in units then Px(p.value)
    else
      var u := units[p.name];
      Px(p.value * u.scale + p.value * u.rate * Number(base))
  }

  function RealValue(units: map<string, Unit>, p: Pixel, base: Length): real {
    Value(units, p, base, Px(0.0)).value
  }

  // ---------------------------------------------------------------- elements

  datatype Size = Size(width: Length, height: Length)

  /**
   * What the attributes of an element say. Laying the element out on its own, which may call into scripts,
   * is the function `content` from the size it is given to the size of its content.
   */
  datatype Style = Style(
    width: Pixel, minWidth: Pixel, maxWidth: Pixel, height: Pixel, minHeight: Pixel, maxHeight: Pixel,
    padding: Edge, margin: Edge, align: Align, hidden: bool, content: Size -> (real, real))

  class LayoutElement {
    const style: Style
    var x: real
    var y: real
    var size: Size
    var contentSize: (real, real)

    constructor (style: Style)
      ensures this.style == style && x == 0.0 && y == 0.0 && size == Size(Px(0.0), Px(0.0)) && contentSize == (0.0, 0.0)
    {
      this.style := style;
      x, y, size, contentSize := 0.0, 0.0, Size(Px(0.0), Px(0.0)), (0.0, 0.0);
    }
  }

  /** A child of the container: a block stands for its own children, other elements have no frame. */
  datatype Child = Block(children: seq<Child>) | Layout(element: LayoutElement) | Other

  /** `LayoutElementForEach`: the elements in the order of the visit. */
  function Visit(children: seq<Child>): seq<LayoutElement> {
    if |children| == 0 then []
    else
      (match children[0]
       case Block(inner) => Visit(inner)
       case Layout(e) => [e]
       case Other => [])
      + Visit(children[1..])
  }

  lemma VisitNone()
    ensures Visit([]) == []
  {
  }

  lemma VisitOne(e: LayoutElement, inner: seq<Child>)
    ensures Visit([Layout(e)]) == [e] && Visit([Block(inner)]) == Visit(inner) && Visit([Other]) == []
  {
    hide Visit;
    VisitAlone(Layout(e));
    VisitAlone(Block(inner));
    VisitAlone(Other);
  }

  lemma VisitAlone(c: Child)
    ensures Visit([c]) == match c
      case Block(inner) => Visit(inner)
      case Layout(e) => [e]
      case Other => []
  {
    var s := [c];
    assert s[1..] == [];
    VisitNone();
  }

  /** Children are visited in order, those of a block in its place. */
  lemma {:induction false} VisitInOrder(a: seq<Child>, b: seq<Child>)
    ensures Visit(a + b) == Visit(a) + Visit(b)
  {
    if |a| == 0 {
      assert a + b == b;
    } else {
      hide Visit;
      assert (a + b)[0] == a[0] && (a + b)[1..] == a[1..] + b;
      VisitInOrder(a[1..], b);
      Regroup(Visit([a[0]]), Visit(a[1..]), Visit(b));
      VisitFirst(a);
      VisitFirst(a + b);
    }
  }

  lemma Regroup(a: seq<LayoutElement>, b: seq<LayoutElement>, c: seq<LayoutElement>)
    ensures a + (b + c) == a + b + c
  {
  }

  lemma VisitFirst(a: seq<Child>)
    requires |a| > 0
    ensures Visit(a) == Visit([a[0]]) + Visit(a[1..])
  {
    VisitAlone(a[0]);
  }

  function Visible(es: seq<LayoutElement>): seq<LayoutElement> {
    if |es| == 0 then []
    else Visible(es[..|es| - 1]) + if es[|es| - 1].style.hidden then [] else [es[|es| - 1]]
  }

  // ---------------------------------------------------------------- measuring

  /** A size that follows the content is kept at or above the minimum, and then at or below the maximum. */
  function Fitted(units: map<string, Unit>, content: real, min: Pixel, max: Pixel, base: Length): real {
    var least := RealValue(units, min, base);
    var most := Value(units, max, base, Auto);
    var v := if content < least then least else content;
    if most.Px? && v > most.value then most.value else v
  }

  function InSize(units: map<string, Unit>, padding: Edge, size: Size): Size {
    Size(Less(size.width, RealValue(units, padding.left, size.width) + RealValue(units, padding.right, size.width)),
         Less(size.height, RealValue(units, padding.top, size.height) + RealValue(units, padding.bottom, size.height)))
  }

  /** The box of a child in a container with `room` inside its paddings. */
  function Measured(units: map<string, Unit>, s: Style, room: Size): Box {
    var left := RealValue(units, s.margin.left, room.width);
    var right := RealValue(units, s.margin.right, room.width);
    var top := RealValue(units, s.margin.top, room.height);
    var bottom := RealValue(units, s.margin.bottom, room.height);
    var width := Value(units, s.width, Less(room.width, left + right), Auto);
    var height := Value(units, s.height, Less(room.height, top + bottom), Auto);
    var content := s.content(Size(width, height));
    Box(left, right, top, bottom,
        if width.Auto? then Fitted(units, content.0, s.minWidth, s.maxWidth, room.width) else width.value,
        if height.Auto? then Fitted(units, content.1, s.minHeight, s.maxHeight, room.height) else height.value,
        s.align)
  }

  function Boxes(units: map<string, Unit>, vs: seq<LayoutElement>, room: Size): (b: seq<Box>)
    ensures |b| == |vs|
  {
    seq(|vs|, i requires 0 <= i < |vs| => Measured(units, vs[i].style, room))
  }

  function Container(units: map<string, Unit>, padding: Edge, size: Size, nowrap: bool): Frame {
    Frame(RealValue(units, padding.left, size.width), RealValue(units, padding.right, size.width),
          RealValue(units, padding.top, size.height), RealValue(units, padding.bottom, size.height),
          !nowrap, Number(size.width))
  }

  // ---------------------------------------------------------------- known lengths

  /** The two units of every context: pixels, and hundredths of the base. */
  ghost predicate Standard(units: map<string, Unit>) {
    && "px" in units && units["px"] == Unit(1.0, 0.0)
    && "%" in units && units["%"] == Unit(0.0, 0.01)
  }

  lemma Lengths(units: map<string, Unit>, v: real, base: real, default: Length)
    requires Standard(units)
    ensures Value(units, Pixel(v, "px"), Px(base), default) == Px(v)
    ensures Value(units, Pixel(v, "%"), Px(base), default) == Px(v * base / 100.0)
    ensures Value(units, Pixel(v, "auto"), Px(base), default) == default
    ensures forall name :: name != "auto" && name !in units ==> Value(units, Pixel(v, name), Px(base), default) == Px(v)
  {
    assert v * 0.01 * base == v * base / 100.0;
  }

  predicate Percentages(e: Edge) {
    e.left.name == "%" && e.right.name == "%" && e.top.name == "%" && e.bottom.name == "%"
  }

  /** Paddings are percentages of the container, and what they leave is the room for the children. */
  lemma PaddingLeavesRoom(units: map<string, Unit>, p: Edge, w: real, h: real, nowrap: bool)
    requires Standard(units)
    ensures
      var f, room := Container(units, p, Size(Px(w), Px(h)), nowrap), InSize(units, p, Size(Px(w), Px(h)));
      && room == Size(Px(w - f.left - f.right), Px(h - f.top - f.bottom)) && f.width == w && (f.wrap <==> !nowrap)
      && (Percentages(p) ==>
            && f.left == p.left.value * w / 100.0 && f.right == p.right.value * w / 100.0
            && f.top == p.top.value * h / 100.0 && f.bottom == p.bottom.value * h / 100.0)
  {
    Lengths(units, p.left.value, w, Px(0.0));
    Lengths(units, p.right.value, w, Px(0.0));
    Lengths(units, p.top.value, h, Px(0.0));
    Lengths(units, p.bottom.value, h, Px(0.0));
  }

  /** Margins are percentages of the room, and a child of full width or height fills the room with them. */
  lemma MarginsOfRoom(units: map<string, Unit>, s: Style, w: real, h: real)
    requires Standard(units)
    ensures
      var m, b := s.margin, Measured(units, s, Size(Px(w), Px(h)));
      && b.align == s.align
      && (Percentages(m) ==>
            && b.left == m.left.value * w / 100.0 && b.right == m.right.value * w / 100.0
            && b.top == m.top.value * h / 100.0 && b.bottom == m.bottom.value * h / 100.0)
      && (s.width == Pixel(100.0, "%") ==> b.OuterWidth() == w)
      && (s.height == Pixel(100.0, "%") ==> b.OuterHeight() == h)
  {
    hide Value;
    var m, b := s.margin, Measured(units, s, Size(Px(w), Px(h)));
    Lengths(units, m.left.value, w, Px(0.0));
    Lengths(units, m.right.value, w, Px(0.0));
    Lengths(units, m.top.value, h, Px(0.0));
    Lengths(units, m.bottom.value, h, Px(0.0));
    Lengths(units, 100.0, w - (b.left + b.right), Auto);
    Lengths(units, 100.0, h - (b.top + b.bottom), Auto);
  }

  /** Kept between a least and a most, of which the most counts if they cross. */
  predicate Between(v: real, content: real, least: real, most: real) {
    && v <= most && (v >= least || v == most)
    && (least <= content <= most ==> v == content)
    && (v == content || v == least || v == most)
  }

  /**
   * A given side is taken as it is, also when the element is laid out on its own; one that is not given follows the
   * content of that layout, between the minimum and the maximum of its own direction.
   */
  lemma SidesOfContent(units: map<string, Unit>, s: Style, w: real, h: real, v: real, least: real, most: real)
    requires Standard(units)
    ensures
      var b := Measured(units, s, Size(Px(w), Px(h)));
      && (s.width == Pixel(v, "px") && s.height == Pixel(0.0, "auto") ==>
            && b.width == v
            && (s.minHeight == Pixel(least, "px") && s.maxHeight == Pixel(most, "px") ==>
                  Between(b.height, s.content(Size(Px(v), Auto)).1, least, most))
            && (s.minHeight == Pixel(least, "%") && s.maxHeight == Pixel(0.0, "auto") ==>
                  b.height == Max(s.content(Size(Px(v), Auto)).1, least * h / 100.0)))
      && (s.width == Pixel(0.0, "auto") && s.height == Pixel(v, "px") ==>
            && b.height == v
            && (s.minWidth == Pixel(least, "px") && s.maxWidth == Pixel(most, "px") ==>
                  Between(b.width, s.content(Size(Auto, Px(v))).0, least, most))
            && (s.minWidth == Pixel(least, "%") && s.maxWidth == Pixel(0.0, "auto") ==>
                  b.width == Max(s.content(Size(Auto, Px(v))).0, least * w / 100.0)))
  {
    hide Value;
    var b := Measured(units, s, Size(Px(w), Px(h)));
    Lengths(units, v, w - (b.left + b.right), Auto);
    Lengths(units, v, h - (b.top + b.bottom), Auto);
    Lengths(units, 0.0, w - (b.left + b.right), Auto);
    Lengths(units, 0.0, h - (b.top + b.bottom), Auto);
    Lengths(units, least, w, Px(0.0));
    Lengths(units, least, h, Px(0.0));
    Lengths(units, most, w, Auto);
    Lengths(units, most, h, Auto);
    Lengths(units, 0.0, w, Auto);
    Lengths(units, 0.0, h, Auto);
  }

  method MeasureSide(units: map<string, Unit>, side: Length, content: real, min: Pixel, max: Pixel, base: Length)
    returns (v: real)
    ensures v == if side.Auto? then Fitted(units, content, min, max, base) else side.value
  {
    if side == Auto {
      v := content;
      var least := RealValue(units, min, base);
      var most := Value(units, max, base, Auto);
      if v < least {
        v := least;
      }
      if most != Auto && v > most.value {
        v := most.value;
      }
    } else {
      v := side.value;
    }
  }

  method Measure(units: map<string, Unit>, e: LayoutElement, room: Size) returns (box: Box)
    modifies e`size, e`contentSize
    ensures box == Measured(units, e.style, room)
    ensures e.size == Size(Px(box.width), Px(box.height))
  {
    var s := e.style;
    var left := RealValue(units, s.margin.left, room.width);
    var right := RealValue(units, s.margin.right, room.width);
    var top := RealValue(units, s.margin.top, room.height);
    var bottom := RealValue(units, s.margin.bottom, room.height);
    var width := Value(units, s.width, Less(room.width, left + right), Auto);
    var height := Value(units, s.height, Less(room.height, top + bottom), Auto);
    e.size := Size(width, height);
    e.contentSize := s.content(e.size);
    var w := MeasureSide(units, width, e.contentSize.0, s.minWidth, s.maxWidth, room.width);
    var h := MeasureSide(units, height, e.contentSize.1, s.minHeight, s.maxHeight, room.height);
    e.size := Size(Px(w), Px(h));
    box := Box(left, right, top, bottom, w, h, s.align);
  }

  // ---------------------------------------------------------------- placing

  ghost predicate Distinct(es: seq<LayoutElement>) {
    forall i: nat, j: nat {:trigger es[i], es[j]} :: i < j < |es| ==> es[i] != es[j]
  }

  /** Child `i` is where the geometry says, apart from its alignment in the line. */
  ghost predicate Laid(f: Frame, b: seq<Box>, i: nat, e: LayoutElement)
    requires i < |b|
    reads e
  {
    e.x == X(f, b, i) && e.y == LineTop(f, b, i) + b[i].top && e.size == Size(Px(b[i].width), Px(b[i].height))
  }

  ghost predicate Placed(f: Frame, b: seq<Box>, i: nat, e: LayoutElement)
    requires i < |b|
    reads e
  {
    e.x == X(f, b, i) && e.y == Y(f, b, i) && e.size == Size(Px(b[i].width), Px(b[i].height))
  }

  /** `_LayoutElementLine`: aligns the children of one line. */
  method LayoutLine(units: map<string, Unit>, line: seq<LayoutElement>, room: Size, lineHeight: real,
                    ghost f: Frame, ghost b: seq<Box>, ghost vs: seq<LayoutElement>, ghost s: nat, ghost n: nat)
    requires s <= n <= |vs| && line == vs[s..n] && Distinct(vs) && b == Boxes(units, vs, room)
    requires SameLine(f, b, s, n) && (n == |b| || Start(f, b, n) == n) && lineHeight == Height(b, s, n)
    requires forall k: nat {:trigger Laid(f, b, k, vs[k])} :: s <= k < n ==> Laid(f, b, k, vs[k])
    modifies (set e | e in line)`y
    ensures forall k: nat {:trigger Placed(f, b, k, vs[k])} :: s <= k < n ==> Placed(f, b, k, vs[k])
  {
    hide X, LineTop, Start, End, Height;
    for i := 0 to |line|
      invariant forall k: nat {:trigger Placed(f, b, k, vs[k])} :: s <= k < s + i ==> Placed(f, b, k, vs[k])
      invariant forall k: nat {:trigger Laid(f, b, k, vs[k])} :: s + i <= k < n ==> Laid(f, b, k, vs[k])
    {
      var e := line[i];
      assert e == vs[s + i] && Laid(f, b, s + i, vs[s + i]);
      EndIs(f, b, s, s + i, n);
      assert Start(f, b, s + i) == s;
      if e.style.align == Bottom {
        var bottom := RealValue(units, e.style.margin.bottom, room.height);
        var top := RealValue(units, e.style.margin.top, room.height);
        e.y := e.y + (lineHeight - top - bottom - e.size.height.value);
      } else if e.style.align == Middle {
        var bottom := RealValue(units, e.style.margin.bottom, room.height);
        var top := RealValue(units, e.style.margin.top, room.height);
        e.y := e.y + (lineHeight - top - bottom - e.size.height.value) * 0.5;
      }
      assert Placed(f, b, s + i, vs[s + i]);
    }
  }

  /** The running position after `n` visible children, the current line having started with child `s`. */
  datatype Pen = Pen(x: real, y: real, lineHeight: real, maxWidth: real, line: seq<LayoutElement>)

  ghost predicate At(p: Pen, f: Frame, b: seq<Box>, vs: seq<LayoutElement>, s: nat, n: nat) {
    && s <= n <= |vs| == |b|
    && s == (if n == 0 then 0 else Start(f, b, n - 1))
    && p.x == f.left + Widths(b, s, n)
    && p.y == (if n == 0 then f.top else LineTop(f, b, n - 1))
    && p.lineHeight == Height(b, s, n)
    && p.maxWidth == ContentWidth(f, b, n)
    && p.line == vs[s..n]
  }

  /** The lines before the current one are finished, and the current one is laid out from left to right. */
  ghost predicate Frames(f: Frame, b: seq<Box>, vs: seq<LayoutElement>, s: nat, n: nat)
    requires s <= n <= |vs| == |b|
    reads vs
  {
    && (forall k: nat {:trigger Placed(f, b, k, vs[k])} :: k < s ==> Placed(f, b, k, vs[k]))
    && (forall k: nat {:trigger Laid(f, b, k, vs[k])} :: s <= k < n ==> Laid(f, b, k, vs[k]))
  }

  /** Ends the current line, if there is one. */
  method EndLine(units: map<string, Unit>, room: Size, p: Pen, ghost f: Frame, ghost b: seq<Box>, ghost vs: seq<LayoutElement>,
                 ghost s: nat, ghost n: nat)
    requires b == Boxes(units, vs, room) && Distinct(vs) && At(p, f, b, vs, s, n) && Frames(f, b, vs, s, n)
    requires n == |b| || (n > 0 ==> Start(f, b, n) == n)
    modifies (set e | e in p.line)`y
    ensures Frames(f, b, vs, n, n)
  {
    hide Start, Height, LineTop, X, Y, ContentWidth, Widths;
    if |p.line| > 0 {
      FromStart(f, b, n - 1);
      assert forall k: nat {:trigger vs[k]} :: k < s ==> vs[k] !in p.line;
      LayoutLine(units, p.line, room, p.lineHeight, f, b, vs, s, n);
    }
  }

  lemma StartHere(f: Frame, b: seq<Box>, s: nat, n: nat)
    requires n < |b| && s == (if n == 0 then 0 else Start(f, b, n - 1))
    ensures Start(f, b, n) == if Overflows(f, b, s, n) then n else s
    ensures Overflows(f, b, s, n) ==>
      LineTop(f, b, n) == (if n == 0 then f.top else LineTop(f, b, n - 1)) + Height(b, s, n)
    ensures !Overflows(f, b, s, n) ==> LineTop(f, b, n) == if n == 0 then f.top else LineTop(f, b, n - 1)
  {
  }

  lemma Advance(f: Frame, b: seq<Box>, s: nat, n: nat)
    requires n < |b| && s == Start(f, b, n)
    ensures X(f, b, n) == f.left + Widths(b, s, n) + b[n].left
    ensures Widths(b, s, n + 1) == Widths(b, s, n) + b[n].OuterWidth()
    ensures Height(b, s, n + 1) == Max(Height(b, s, n), b[n].OuterHeight())
    ensures ContentWidth(f, b, n + 1) == Max(ContentWidth(f, b, n), X(f, b, n) + f.right + b[n].right)
    ensures Widths(b, n, n) == 0.0 && Height(b, n, n) == 0.0
  {
  }

  /** The pen stands where child `n` is going to be. */
  ghost predicate Ready(p: Pen, f: Frame, b: seq<Box>, vs: seq<LayoutElement>, s: nat, n: nat) {
    && n < |vs| == |b|
    && s == Start(f, b, n)
    && p.x == f.left + Widths(b, s, n)
    && p.y == LineTop(f, b, n)
    && p.lineHeight == Height(b, s, n)
    && p.maxWidth == ContentWidth(f, b, n)
    && p.line == vs[s..n]
  }

  /** Starts a new line if the child does not fit on the current one. */
  method Wrap(units: map<string, Unit>, room: Size, f: Frame, p: Pen, box: Box,
              ghost b: seq<Box>, ghost vs: seq<LayoutElement>, ghost s: nat, ghost n: nat)
    returns (p': Pen, ghost s': nat)
    requires b == Boxes(units, vs, room) && Distinct(vs) && At(p, f, b, vs, s, n) && Frames(f, b, vs, s, n)
    requires n < |vs| && box == b[n]
    modifies (set e | e in p.line)`y
    ensures Ready(p', f, b, vs, s', n) && Frames(f, b, vs, s', n)
  {
    hide Placed, Laid, X, Y, Start, Widths, Height, ContentWidth, LineTop, Boxes;
    p', s' := p, s;
    StartHere(f, b, s, n);
    if f.wrap && p.x + box.left + box.right + f.right + box.width > f.width {
      EndLine(units, room, p, f, b, vs, s, n);
      Advance(f, b, n, n);
      s' := n;
      p' := p.(y := p.y + p.lineHeight, lineHeight := 0.0, x := f.left, line := []);
    }
  }

  method SetOrigin(e: LayoutElement, left: real, top: real,
                   ghost f: Frame, ghost b: seq<Box>, ghost vs: seq<LayoutElement>, ghost s: nat, ghost n: nat)
    requires s <= n < |vs| == |b| && e == vs[n] && Distinct(vs) && Frames(f, b, vs, s, n)
    requires left == X(f, b, n) && top == LineTop(f, b, n) + b[n].top
    requires e.size == Size(Px(b[n].width), Px(b[n].height))
    modifies e`x, e`y
    ensures Frames(f, b, vs, s, n + 1)
  {
    hide X, Y, LineTop;
    e.x, e.y := left, top;
  }

  /** Places one visible child. */
  method PlaceChild(units: map<string, Unit>, room: Size, f: Frame, p: Pen, e: LayoutElement,
                    ghost b: seq<Box>, ghost vs: seq<LayoutElement>, ghost s: nat, ghost n: nat)
    returns (p': Pen, ghost s': nat)
    requires b == Boxes(units, vs, room) && Distinct(vs) && At(p, f, b, vs, s, n) && Frames(f, b, vs, s, n)
    requires n < |vs| && e == vs[n]
    modifies e, (set e | e in p.line)`y
    ensures s' <= n && At(p', f, b, vs, s', n + 1) && Frames(f, b, vs, s', n + 1)
  {
    hide Placed, Laid, X, Y, Start, Widths, Height, ContentWidth, LineTop;
    assert forall k: nat {:trigger vs[k]} :: k < n ==> vs[k] != e;
    var box := Measure(units, e, room);
    p', s' := Wrap(units, room, f, p, box, b, vs, s, n);
    Advance(f, b, s', n);
    var left, top := p'.x + box.left, p'.y + box.top;
    SetOrigin(e, left, top, f, b, vs, s', n);
    p' := p'.(
      x := p'.x + (box.width + box.left + box.right),
      lineHeight := Max(p'.lineHeight, box.height + box.top + box.bottom),
      maxWidth := Max(p'.maxWidth, left + f.right + box.right),
      line := p'.line + [e]);
  }

  // ---------------------------------------------------------------- where the frames end up

  datatype Rect = Rect(left: real, top: real, right: real, bottom: real)

  /** The margin box around the frame of an element. */
  ghost function Outer(units: map<string, Unit>, room: Size, e: LayoutElement): Rect
    reads e
  {
    var m := e.style.margin;
    Rect(e.x - RealValue(units, m.left, room.width),
         e.y - RealValue(units, m.top, room.height),
         e.x + Number(e.size.width) + RealValue(units, m.right, room.width),
         e.y + Number(e.size.height) + RealValue(units, m.bottom, room.height))
  }

  /** Side by side, or one above the other. */
  predicate Disjoint(r: Rect, t: Rect) {
    r.right <= t.left || r.bottom <= t.top
  }

  /**
   * No margin box lies above or below the paddings, and only the first of a line reaches into that on the right; if
   * none is inverted, none lies left of the paddings or over another.
   */
  ghost predicate Tidy(units: map<string, Unit>, room: Size, f: Frame, height: real, vs: seq<LayoutElement>)
    reads vs
  {
    && (forall e <- vs :: f.top <= Outer(units, room, e).top && Outer(units, room, e).bottom <= height - f.bottom)
    && (f.wrap ==> forall e <- vs :: Outer(units, room, e).right <= f.width - f.right || Outer(units, room, e).left == f.left)
    && ((forall e <- vs :: Outer(units, room, e).left <= Outer(units, room, e).right) ==>
          && (forall e <- vs :: f.left <= Outer(units, room, e).left)
          && forall i: nat, j: nat {:trigger vs[i], vs[j]} :: i < j < |vs| ==>
               Disjoint(Outer(units, room, vs[i]), Outer(units, room, vs[j])))
  }

  lemma PlacedOuter(units: map<string, Unit>, room: Size, f: Frame, vs: seq<LayoutElement>, k: nat)
    requires k < |vs| && Placed(f, Boxes(units, vs, room), k, vs[k])
    ensures
      var b := Boxes(units, vs, room);
      Outer(units, room, vs[k]) == Rect(X(f, b, k) - b[k].left, Y(f, b, k) - b[k].top,
                                        X(f, b, k) + b[k].width + b[k].right, Y(f, b, k) + b[k].height + b[k].bottom)
  {
    hide X, Y, RealValue;
  }

  /** Placed frames are tidy. */
  lemma PlacedTidy(units: map<string, Unit>, room: Size, f: Frame, vs: seq<LayoutElement>)
    requires var b := Boxes(units, vs, room); forall k: nat {:trigger Placed(f, b, k, vs[k])} :: k < |vs| ==> Placed(f, b, k, vs[k])
    ensures Tidy(units, room, f, ContentHeight(f, Boxes(units, vs, room)), vs)
  {
    hide X, Y, Start, ContentHeight, Outer, Boxes, Placed;
    var b := Boxes(units, vs, room);
    forall k: nat {:trigger vs[k]} | k < |vs|
      ensures f.top <= Outer(units, room, vs[k]).top && Outer(units, room, vs[k]).bottom <= ContentHeight(f, b) - f.bottom
    {
      assert Placed(f, b, k, vs[k]);
      PlacedOuter(units, room, f, vs, k);
      InsidePadding(f, b, k);
    }
    forall k: nat {:trigger vs[k]} | k < |vs| && f.wrap
      ensures Outer(units, room, vs[k]).right <= f.width - f.right || Outer(units, room, vs[k]).left == f.left
    {
      assert Placed(f, b, k, vs[k]);
      PlacedOuter(units, room, f, vs, k);
      if Start(f, b, k) < k { FitsInWidth(f, b, k); } else { FirstOnLeft(f, b, k); }
    }
    if forall e <- vs :: Outer(units, room, e).left <= Outer(units, room, e).right {
      forall k: nat {:trigger b[k]} | k < |b|
        ensures b[k].OuterWidth() >= 0.0
      {
        assert vs[k] in vs && Placed(f, b, k, vs[k]);
        PlacedOuter(units, room, f, vs, k);
      }
      forall k: nat {:trigger vs[k]} | k < |vs|
        ensures f.left <= Outer(units, room, vs[k]).left
      {
        assert Placed(f, b, k, vs[k]);
        PlacedOuter(units, room, f, vs, k);
        InsidePadding(f, b, k);
      }
      forall i: nat, j: nat {:trigger vs[i], vs[j]} | i < j < |vs|
        ensures Disjoint(Outer(units, room, vs[i]), Outer(units, room, vs[j]))
      {
        assert Placed(f, b, i, vs[i]) && Placed(f, b, j, vs[j]);
        PlacedOuter(units, room, f, vs, i);
        PlacedOuter(units, room, f, vs, j);
        NoOverlap(f, b, i, j);
      }
    }
  }

  // ---------------------------------------------------------------- the layouts

  lemma {:induction false} VisibleMembers(es: seq<LayoutElement>, e: LayoutElement)
    ensures e in Visible(es) <==> e in es && !e.style.hidden
  {
    if |es| > 0 {
      VisibleMembers(es[..|es| - 1], e);
      assert es == es[..|es| - 1] + [es[|es| - 1]];
    }
  }

  lemma {:induction false} VisibleDistinct(es: seq<LayoutElement>)
    requires Distinct(es)
    ensures Distinct(Visible(es))
  {
    if |es| > 0 {
      VisibleDistinct(es[..|es| - 1]);
      VisibleMembers(es[..|es| - 1], es[|es| - 1]);
    }
  }

  lemma {:induction false} VisiblePrefix(es: seq<LayoutElement>, j: nat)
    requires j <= |es|
    ensures Visible(es[..j]) <= Visible(es)
  {
    if j < |es| {
      VisiblePrefix(es[..|es| - 1], j);
      assert es[..|es| - 1][..j] == es[..j];
    } else {
      assert es[..j] == es;
    }
  }

  /** The loop over the elements: all of them are placed, and the pen stands at the end. */
  method PlaceAll(units: map<string, Unit>, room: Size, f: Frame, es: seq<LayoutElement>,
                  ghost b: seq<Box>, ghost vs: seq<LayoutElement>)
    returns (p: Pen)
    requires Distinct(es) && vs == Visible(es) && b == Boxes(units, vs, room)
    modifies es
    ensures Frames(f, b, vs, |vs|, |vs|)
    ensures p.maxWidth == ContentWidth(f, b, |b|) && p.y + p.lineHeight + f.bottom == ContentHeight(f, b)
    ensures forall e <- es :: e.style.hidden ==> unchanged(e)
  {
    hide Placed, Laid, X, Y, Start, Widths, Height, LineTop, ContentWidth, Visible, Distinct, Boxes;
    ghost var s: nat, n: nat := 0, 0;
    VisibleDistinct(es);
    EmptyLine(f, b, es);
    p := Pen(f.left, f.top, 0.0, f.left + f.right, []);
    for j := 0 to |es|
      invariant n <= |vs| && Visible(es[..j]) == vs[..n]
      invariant At(p, f, b, vs, s, n) && Frames(f, b, vs, s, n)
      invariant forall e <- es :: e.style.hidden ==> unchanged(e)
      modifies es
    {
      var e := es[j];
      NextVisible(es, j);
      if !e.style.hidden {
        assert e == vs[n];
        VisibleLine(es, p.line, s, n);
        p, s := PlaceChild(units, room, f, p, e, b, vs, s, n);
        n := n + 1;
      }
    }
    assert es[..|es|] == es;
    VisibleLine(es, p.line, s, n);
    assert n == |vs[..n]| == |vs|;
    EndLine(units, room, p, f, b, vs, s, n);
    LastLine(f, b, s);
  }

  /** `_LayoutElementFlex` over the visited elements. */
  method LayoutFlex(units: map<string, Unit>, element: LayoutElement, children: seq<Child>, nowrap: bool)
    requires Distinct(Visit(children)) && element !in Visit(children)
    modifies element`contentSize, Visit(children)
    ensures
      var vs := Visible(Visit(children));
      var b := Boxes(units, vs, InSize(units, element.style.padding, element.size));
      var f := Container(units, element.style.padding, element.size, nowrap);
      && (forall k: nat {:trigger Placed(f, b, k, vs[k])} :: k < |vs| ==> Placed(f, b, k, vs[k]))
      && element.contentSize == (ContentWidth(f, b, |b|), ContentHeight(f, b))
    ensures
      var room := InSize(units, element.style.padding, element.size);
      var f := Container(units, element.style.padding, element.size, nowrap);
      Tidy(units, room, f, element.contentSize.1, Visible(Visit(children)))
    ensures forall e <- Visit(children) :: e.style.hidden ==> unchanged(e)
  {
    hide Placed, Laid, Tidy, ContentWidth, ContentHeight, Visit, Visible, Distinct, Boxes, InSize, Container;
    var es := Visit(children);
    var room := InSize(units, element.style.padding, element.size);
    var f := Container(units, element.style.padding, element.size, nowrap);
    ghost var vs := Visible(es);
    var p := PlaceAll(units, room, f, es, Boxes(units, vs, room), vs);
    VisibleLine(es, vs[0..], 0, |vs|);
    assert vs[0..] == vs;
    element.contentSize := (p.maxWidth, p.y + p.lineHeight + f.bottom);
    PlacedTidy(units, room, f, vs);
  }

  lemma VisibleLine(es: seq<LayoutElement>, line: seq<LayoutElement>, s: nat, n: nat)
    requires s <= n <= |Visible(es)| && line == Visible(es)[s..n]
    ensures forall v <- line :: v in es && !v.style.hidden
  {
    forall v | v in line ensures v in es && !v.style.hidden {
      assert v in Visible(es);
      VisibleMembers(es, v);
    }
  }

  lemma EmptyLine(f: Frame, b: seq<Box>, es: seq<LayoutElement>)
    ensures Widths(b, 0, 0) == 0.0 && Height(b, 0, 0) == 0.0 && ContentWidth(f, b, 0) == f.left + f.right
    ensures Visible(es[..0]) == []
  {
  }

  lemma NextVisible(es: seq<LayoutElement>, j: nat)
    requires j < |es|
    ensures Visible(es[..j + 1]) == Visible(es[..j]) + if es[j].style.hidden then [] else [es[j]]
    ensures Visible(es[..j + 1]) <= Visible(es)
  {
    assert es[..j + 1][..j] == es[..j];
    VisiblePrefix(es, j + 1);
  }

  lemma LastLine(f: Frame, b: seq<Box>, s: nat)
    requires s == (if |b| == 0 then 0 else Start(f, b, |b| - 1))
    ensures ContentHeight(f, b) == (if |b| == 0 then f.top else LineTop(f, b, |b| - 1)) + Height(b, s, |b|) + f.bottom
  {
  }
}
