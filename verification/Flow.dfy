/** Flow layout as geometry: which boxes share a line, and where each box goes (document/LayoutElement.cc). */
module Flow {
  datatype Align = Top | Middle | Bottom

  /** A visible child after measuring: its four margins, its size, and its alignment in the line. */
  datatype Box = Box(left: real, right: real, top: real, bottom: real, width: real, height: real, align: Align)
  {
    function OuterWidth(): real { width + left + right }

    function OuterHeight(): real { height + top + bottom }
  }

  /** The container: its paddings, and the width at which lines break, if they do. */
  datatype Frame = Frame(left: real, right: real, top: real, bottom: real, wrap: bool, width: real)

  // ---------------------------------------------------------------- lines

  /** The outer widths of boxes `s` to `e - 1`. */
  function Widths(b: seq<Box>, s: nat, e: nat): real
    requires s <= e <= |b|
  {
    if s == e then 0.0 else Widths(b, s, e - 1) + b[e - 1].OuterWidth()
  }

  function Max(a: real, c: real): real {
    if a < c then c else a
  }

  /** The height of a line of boxes `s` to `e - 1`. */
  function Height(b: seq<Box>, s: nat, e: nat): real
    requires s <= e <= |b|
  {
    if s == e then 0.0 else Max(Height(b, s, e - 1), b[e - 1].OuterHeight())
  }

  /** Box `i` would stick out of the container on the line that starts with box `s`. */
  predicate Overflows(f: Frame, b: seq<Box>, s: nat, i: nat)
    requires s <= i < |b|
  {
    f.wrap && f.left + Widths(b, s, i) + b[i].OuterWidth() + f.right > f.width
  }

  /** The first box of the line of box `i`. */
  function Start(f: Frame, b: seq<Box>, i: nat): (s: nat)
    requires i < |b|
    ensures s <= i
  {
    if i == 0 then 0
    else
      var s := Start(f, b, i - 1);
      if Overflows(f, b, s, i) then i else s
  }

  /** One past the last box of the line of box `i`. */
  function End(f: Frame, b: seq<Box>, i: nat): (e: nat)
    requires i < |b|
    ensures i < e <= |b|
    decreases |b| - i
  {
    if i + 1 == |b| || Start(f, b, i + 1) == i + 1 then i + 1 else End(f, b, i + 1)
  }

  /** The upper edge of the line of box `i`. */
  function LineTop(f: Frame, b: seq<Box>, i: nat): real
    requires i < |b|
  {
    if i == 0 then f.top
    else
      var s := Start(f, b, i - 1);
      if Overflows(f, b, s, i) then LineTop(f, b, i - 1) + Height(b, s, i) else LineTop(f, b, i - 1)
  }

  function LineHeight(f: Frame, b: seq<Box>, i: nat): real
    requires i < |b|
  {
    Height(b, Start(f, b, i), End(f, b, i))
  }

  // ---------------------------------------------------------------- positions

  function X(f: Frame, b: seq<Box>, i: nat): real
    requires i < |b|
  {
    f.left + Widths(b, Start(f, b, i), i) + b[i].left
  }

  /** What alignment adds in a line with `room` to spare. */
  function Shift(align: Align, room: real): real {
    match align
    case Top => 0.0
    case Middle => room * 0.5
    case Bottom => room
  }

  function Y(f: Frame, b: seq<Box>, i: nat): real
    requires i < |b|
  {
    LineTop(f, b, i) + b[i].top + Shift(b[i].align, LineHeight(f, b, i) - b[i].OuterHeight())
  }

  function ContentHeight(f: Frame, b: seq<Box>): real {
    if |b| == 0 then f.top + f.bottom
    else LineTop(f, b, |b| - 1) + LineHeight(f, b, |b| - 1) + f.bottom
  }

  /** The right-most left edge, with the margin and the padding but without the width of the box. */
  function ContentWidth(f: Frame, b: seq<Box>, n: nat): real
    requires n <= |b|
  {
    if n == 0 then f.left + f.right
    else Max(ContentWidth(f, b, n - 1), X(f, b, n - 1) + f.right + b[n - 1].right)
  }

  // ---------------------------------------------------------------- lines are intervals

  ghost predicate SameLine(f: Frame, b: seq<Box>, s: nat, e: nat)
    requires s <= e <= |b|
  {
    forall k: nat {:trigger Start(f, b, k)} :: s <= k < e ==> Start(f, b, k) == s
  }

  lemma {:induction false} FromStart(f: Frame, b: seq<Box>, i: nat)
    requires i < |b|
    ensures SameLine(f, b, Start(f, b, i), i + 1)
  {
    if i > 0 {
      FromStart(f, b, i - 1);
    }
  }

  lemma {:induction false} ToEnd(f: Frame, b: seq<Box>, i: nat)
    requires i < |b|
    ensures var e := End(f, b, i); SameLine(f, b, Start(f, b, i), e) && (e == |b| || Start(f, b, e) == e)
    decreases |b| - i
  {
    FromStart(f, b, i);
    if !(i + 1 == |b| || Start(f, b, i + 1) == i + 1) {
      ToEnd(f, b, i + 1);
    }
  }

  /** A maximal run of boxes with the same start is the line of each of them. */
  lemma {:induction false} EndIs(f: Frame, b: seq<Box>, s: nat, i: nat, e: nat)
    requires s <= i < e <= |b| && SameLine(f, b, s, e) && (e == |b| || Start(f, b, e) == e)
    ensures End(f, b, i) == e
    decreases e - i
  {
    if i + 1 < e {
      assert Start(f, b, i + 1) == s;
      EndIs(f, b, s, i + 1, e);
    }
  }

  /** Boxes stay in visit order: a line starts where the line before it ends. */
  lemma {:induction false} StartsGrow(f: Frame, b: seq<Box>, i: nat, j: nat)
    requires i <= j < |b|
    ensures Start(f, b, i) <= Start(f, b, j)
    ensures Start(f, b, j) <= i ==> Start(f, b, j) == Start(f, b, i)
    decreases j
  {
    if i < j {
      StartsGrow(f, b, i, j - 1);
    }
  }

  // ---------------------------------------------------------------- line breaking is greedy

  /** Every box but the first of its line fits within the width, less the padding on the right. */
  lemma FitsInWidth(f: Frame, b: seq<Box>, i: nat)
    requires i < |b| && f.wrap && Start(f, b, i) < i
    ensures X(f, b, i) + b[i].width + b[i].right <= f.width - f.right
  {
  }

  lemma FirstOnLeft(f: Frame, b: seq<Box>, i: nat)
    requires i < |b| && Start(f, b, i) == i
    ensures X(f, b, i) - b[i].left == f.left
  {
  }

  /** A line is broken only before a box that would not have fitted on it. */
  lemma BreaksLate(f: Frame, b: seq<Box>, i: nat)
    requires 0 < i < |b| && Start(f, b, i) == i
    ensures f.wrap && f.left + Widths(b, Start(f, b, i - 1), i) + b[i].OuterWidth() > f.width - f.right
  {
  }

  lemma {:induction false} NoWrapOneLine(f: Frame, b: seq<Box>, i: nat)
    requires i < |b| && !f.wrap
    ensures Start(f, b, i) == 0 && LineTop(f, b, i) == f.top
  {
    if i > 0 {
      NoWrapOneLine(f, b, i - 1);
    }
  }

  // ---------------------------------------------------------------- lines are stacked

  /** The heights of the lines that start before box `n`. */
  function LineHeights(f: Frame, b: seq<Box>, n: nat): real
    requires n <= |b|
  {
    if n == 0 then 0.0
    else LineHeights(f, b, n - 1) + if Start(f, b, n - 1) == n - 1 then LineHeight(f, b, n - 1) else 0.0
  }

  lemma {:induction false} LineTopIsSum(f: Frame, b: seq<Box>, i: nat)
    requires i < |b|
    ensures LineTop(f, b, i) == f.top + LineHeights(f, b, Start(f, b, i))
    ensures LineHeights(f, b, i + 1) == LineHeights(f, b, Start(f, b, i)) + LineHeight(f, b, i)
  {
    if i > 0 {
      LineTopIsSum(f, b, i - 1);
      FromStart(f, b, i - 1);
      var s := Start(f, b, i - 1);
      if Start(f, b, i) == i {
        EndIs(f, b, s, i - 1, i);
      } else {
        ToEnd(f, b, i - 1);
        ToEnd(f, b, i);
      }
    }
  }

  /** The content is as high as both paddings and all lines together. */
  lemma ContentHeightIsSum(f: Frame, b: seq<Box>)
    ensures ContentHeight(f, b) == f.top + LineHeights(f, b, |b|) + f.bottom
  {
    if |b| > 0 {
      LineTopIsSum(f, b, |b| - 1);
    }
  }

  // ---------------------------------------------------------------- where a box goes in its line

  /** The next box of a line starts where the one before it ends. */
  lemma Adjacent(f: Frame, b: seq<Box>, i: nat)
    requires i + 1 < |b| && Start(f, b, i + 1) != i + 1
    ensures X(f, b, i + 1) - b[i + 1].left == X(f, b, i) + b[i].width + b[i].right
  {
    assert Start(f, b, i + 1) == Start(f, b, i);
  }

  /** A margin box touches the upper edge of its line, or the lower one, or leaves the same room above and below. */
  lemma Aligned(f: Frame, b: seq<Box>, i: nat)
    requires i < |b|
    ensures
      var above := Y(f, b, i) - b[i].top - LineTop(f, b, i);
      var below := LineTop(f, b, i) + LineHeight(f, b, i) - (Y(f, b, i) + b[i].height + b[i].bottom);
      && (b[i].align == Top ==> above == 0.0)
      && (b[i].align == Bottom ==> below == 0.0)
      && (b[i].align == Middle ==> above == below)
  {
  }

  /** The content width is at least that of both paddings, and of the left edge of each box with what is right of it. */
  lemma {:induction false} ContentWidthCovers(f: Frame, b: seq<Box>, n: nat, i: nat)
    requires i < n <= |b|
    ensures X(f, b, i) + b[i].right + f.right <= ContentWidth(f, b, n)
    decreases n
  {
    if i < n - 1 {
      ContentWidthCovers(f, b, n - 1, i);
    }
  }

  /** And it is one of these. */
  lemma {:induction false} ContentWidthReached(f: Frame, b: seq<Box>, n: nat)
    requires n <= |b|
    ensures f.left + f.right <= ContentWidth(f, b, n)
    ensures ContentWidth(f, b, n) == f.left + f.right
      || exists i: nat :: i < n && ContentWidth(f, b, n) == X(f, b, i) + b[i].right + f.right
  {
    if n > 0 {
      ContentWidthReached(f, b, n - 1);
    }
  }

  // ---------------------------------------------------------------- nothing overlaps

  /** No margin box has a negative width. */
  ghost predicate NoneInverted(b: seq<Box>) {
    forall i: nat {:trigger b[i]} :: i < |b| ==> b[i].OuterWidth() >= 0.0
  }

  lemma {:induction false} WidthsGrow(b: seq<Box>, s: nat, i: nat, j: nat)
    requires s <= i <= j <= |b| && NoneInverted(b)
    ensures 0.0 <= Widths(b, s, i) <= Widths(b, s, j)
    decreases j
  {
    if i < j {
      WidthsGrow(b, s, i, j - 1);
    } else if s < i {
      WidthsGrow(b, s, i - 1, i - 1);
    }
  }

  lemma {:induction false} HeightCovers(b: seq<Box>, s: nat, e: nat, i: nat)
    requires s <= i < e <= |b|
    ensures b[i].OuterHeight() <= Height(b, s, e)
    decreases e
  {
    if i < e - 1 {
      HeightCovers(b, s, e - 1, i);
    }
  }

  /** Some box is as high as its line, or the line has no height. */
  lemma {:induction false} HeightReached(b: seq<Box>, s: nat, e: nat)
    requires s <= e <= |b|
    ensures Height(b, s, e) == 0.0 || exists i: nat :: s <= i < e && Height(b, s, e) == b[i].OuterHeight()
    ensures Height(b, s, e) >= 0.0
  {
    if s < e {
      HeightReached(b, s, e - 1);
    }
  }

  predicate InsideLine(f: Frame, b: seq<Box>, i: nat)
    requires i < |b|
  {
    && LineTop(f, b, i) <= Y(f, b, i) - b[i].top
    && Y(f, b, i) + b[i].height + b[i].bottom <= LineTop(f, b, i) + LineHeight(f, b, i)
  }

  /** After alignment every margin box lies within the height of its line. */
  lemma StaysInLine(f: Frame, b: seq<Box>, i: nat)
    requires i < |b|
    ensures InsideLine(f, b, i)
  {
    HeightCovers(b, Start(f, b, i), End(f, b, i), i);
  }

  lemma {:induction false} LinesStacked(f: Frame, b: seq<Box>, i: nat, j: nat)
    requires i < j < |b| && Start(f, b, i) != Start(f, b, j)
    ensures LineTop(f, b, i) + LineHeight(f, b, i) <= LineTop(f, b, j)
    decreases j
  {
    FromStart(f, b, j - 1);
    if Start(f, b, j) == j {
      EndIs(f, b, Start(f, b, j - 1), j - 1, j);
      if Start(f, b, i) == Start(f, b, j - 1) {
        SameLineSameEnd(f, b, i, j - 1);
      } else {
        LinesStacked(f, b, i, j - 1);
        HeightReached(b, Start(f, b, j - 1), j);
      }
    } else {
      StartsGrow(f, b, i, j - 1);
      LinesStacked(f, b, i, j - 1);
    }
  }

  lemma SameLineSameEnd(f: Frame, b: seq<Box>, i: nat, j: nat)
    requires i <= j < |b| && Start(f, b, i) == Start(f, b, j)
    ensures End(f, b, i) == End(f, b, j) && LineTop(f, b, i) == LineTop(f, b, j)
  {
    ToEnd(f, b, j);
    StartsGrow(f, b, i, j);
    EndIs(f, b, Start(f, b, i), i, End(f, b, j));
    LineTopIsSum(f, b, i);
    LineTopIsSum(f, b, j);
  }

  /** The margin boxes of two children are side by side in one line, or in lines one above the other. */
  lemma NoOverlap(f: Frame, b: seq<Box>, i: nat, j: nat)
    requires i < j < |b| && NoneInverted(b)
    ensures
      if Start(f, b, i) == Start(f, b, j)
      then X(f, b, i) + b[i].width + b[i].right <= X(f, b, j) - b[j].left
      else Y(f, b, i) + b[i].height + b[i].bottom <= Y(f, b, j) - b[j].top
  {
    if Start(f, b, i) == Start(f, b, j) {
      WidthsGrow(b, Start(f, b, i), i + 1, j);
    } else {
      StaysInLine(f, b, i);
      LinesStacked(f, b, i, j);
      StaysInLine(f, b, j);
    }
  }

  /** No margin box lies above or below the padding, or left of it. */
  lemma InsidePadding(f: Frame, b: seq<Box>, i: nat)
    requires i < |b|
    ensures f.top <= Y(f, b, i) - b[i].top && Y(f, b, i) + b[i].height + b[i].bottom <= ContentHeight(f, b) - f.bottom
    ensures NoneInverted(b) ==> f.left <= X(f, b, i) - b[i].left
  {
    if NoneInverted(b) { WidthsGrow(b, Start(f, b, i), i, i); }
    StaysInLine(f, b, i);
    LineTopIsSum(f, b, i);
    LineHeightsGrow(f, b, 0, Start(f, b, i));
    var last := |b| - 1;
    if Start(f, b, i) == Start(f, b, last) {
      SameLineSameEnd(f, b, i, last);
    } else {
      LinesStacked(f, b, i, last);
      HeightReached(b, Start(f, b, last), End(f, b, last));
    }
  }

  lemma {:induction false} LineHeightsGrow(f: Frame, b: seq<Box>, m: nat, n: nat)
    requires m <= n <= |b|
    ensures LineHeights(f, b, m) <= LineHeights(f, b, n)
    decreases n
  {
    if m < n {
      LineHeightsGrow(f, b, m, n - 1);
      HeightReached(b, Start(f, b, n - 1), End(f, b, n - 1));
    }
  }
}
