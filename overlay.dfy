/**
 * The viewfinder overlay (OverlayView.kt): the four film formats, the seven grid
 * variants, the centred frame rectangle for a view size and format, and the line and
 * circle primitives each grid draws inside that frame. Coordinates are exact reals;
 * Kotlin's Float rounding is not modelled.
 */
module Overlay {
  datatype AspectRatio = Square | Standard | Wide | FourByFive {
    function DisplayName(): string {
      match this
      case Square => "6x6"
      case Standard => "6x9"
      case Wide => "6x12"
      case FourByFive => "4x5"
    }

    /** Width over height as the exact fraction Num() / Den(). */
    function Num(): nat {
      match this
      case Square => 1
      case Standard => 3
      case Wide => 2
      case FourByFive => 4
    }

    function Den(): nat {
      match this
      case Square => 1
      case Standard => 2
      case Wide => 1
      case FourByFive => 5
    }

    function Value(): (v: real)
      ensures v > 0.0 && v * Den() as real == Num() as real
    {
      match this
      case Square => 1.0
      case Standard => 1.5
      case Wide => 2.0
      case FourByFive => 0.8
    }
  }

  /** `AspectRatio.values()`, in declaration order. */
  const AspectRatios: seq<AspectRatio> := [Square, Standard, Wide, FourByFive]

  datatype GridType =
    | None
    | Thirds
    | CenterCross
    | ThirdsIntersections
    | HeadroomGuide
    | LeadingLines
    | NaturalFrame
  {
    function DisplayName(): string {
      match this
      case None => "Grid Off"
      case Thirds => "Thirds"
      case CenterCross => "Cross"
      case ThirdsIntersections => "Thirds+"
      case HeadroomGuide => "Headroom"
      case LeadingLines => "Lines"
      case NaturalFrame => "Frame"
    }
  }

  /** `GridType.values()`, in declaration order. */
  const GridTypes: seq<GridType> :=
    [None, Thirds, CenterCross, ThirdsIntersections, HeadroomGuide, LeadingLines, NaturalFrame]

  /** Radius of the markers drawn on the thirds intersections. */
  const MarkerRadius: real := 25.0

  datatype Rect = Rect(left: real, top: real, right: real, bottom: real) {
    function Width(): real { right - left }
    function Height(): real { bottom - top }
    function CenterX(): real { (left + right) * 0.5 }
    function CenterY(): real { (top + bottom) * 0.5 }

    predicate Contains(x: real, y: real) {
      left <= x <= right && top <= y <= bottom
    }
  }

  datatype Primitive =
    | Line(x0: real, y0: real, x1: real, y1: real)
    | Circle(cx: real, cy: real, radius: real)

  /** The view is wider than the format: the frame takes the full view height. */
  predicate WiderThan(viewWidth: real, viewHeight: real, ratio: AspectRatio) {
    viewWidth > viewHeight * ratio.Value()
  }

  /**
   * The clear frame of `onDraw`: the largest centred rectangle of the format's ratio
   * inside the view. The comparison `viewWidth / viewHeight > ratio` is taken in its
   * multiplied-out form, which agrees with it for a positive height; for a zero height
   * the frame degenerates to a rectangle of size zero, as Float division does there.
   */
  function Frame(viewWidth: real, viewHeight: real, ratio: AspectRatio): (f: Rect)
    requires viewWidth >= 0.0 && viewHeight >= 0.0
    ensures 0.0 <= f.left <= f.right <= viewWidth
    ensures 0.0 <= f.top <= f.bottom <= viewHeight
    ensures f.Width() == f.Height() * ratio.Value()
    ensures f.left == viewWidth - f.right && f.top == viewHeight - f.bottom
    ensures WiderThan(viewWidth, viewHeight, ratio) ==> f.top == 0.0 && f.bottom == viewHeight
    ensures !WiderThan(viewWidth, viewHeight, ratio) ==> f.left == 0.0 && f.right == viewWidth
  {
    var r := ratio.Value();
    var targetWidth := if WiderThan(viewWidth, viewHeight, ratio) then viewHeight * r else viewWidth;
    var targetHeight := if WiderThan(viewWidth, viewHeight, ratio) then viewHeight else viewWidth / r;
    var left := (viewWidth - targetWidth) / 2.0;
    var top := (viewHeight - targetHeight) / 2.0;
    Rect(left, top, left + targetWidth, top + targetHeight)
  }

  /** The two vertical and two horizontal rule-of-thirds lines of a frame. */
  function ThirdsLines(f: Rect): seq<Primitive> {
    var thirdWidth := f.Width() / 3.0;
    var thirdHeight := f.Height() / 3.0;
    [ Line(f.left + thirdWidth, f.top, f.left + thirdWidth, f.bottom),
      Line(f.left + thirdWidth * 2.0, f.top, f.left + thirdWidth * 2.0, f.bottom),
      Line(f.left, f.top + thirdHeight, f.right, f.top + thirdHeight),
      Line(f.left, f.top + thirdHeight * 2.0, f.right, f.top + thirdHeight * 2.0) ]
  }

  /** The grid drawn inside frame `f`, in drawing order (the `when` of `onDraw`). */
  function GridPrimitives(f: Rect, grid: GridType): seq<Primitive> {
    match grid
    case Thirds => ThirdsLines(f)
    case CenterCross =>
      [ Line(f.CenterX(), f.top, f.CenterX(), f.bottom),
        Line(f.left, f.CenterY(), f.right, f.CenterY()) ]
    case None => []
    case ThirdsIntersections =>
      var thirdWidth := f.Width() / 3.0;
      var thirdHeight := f.Height() / 3.0;
      ThirdsLines(f) +
      [ Circle(f.left + thirdWidth, f.top + thirdHeight, MarkerRadius),
        Circle(f.left + thirdWidth * 2.0, f.top + thirdHeight, MarkerRadius),
        Circle(f.left + thirdWidth, f.top + thirdHeight * 2.0, MarkerRadius),
        Circle(f.left + thirdWidth * 2.0, f.top + thirdHeight * 2.0, MarkerRadius) ]
    case HeadroomGuide =>
      var thirdHeight := f.Height() / 3.0;
      [ Line(f.left, f.top + thirdHeight, f.right, f.top + thirdHeight) ]
    case _ => []
  }

  predicate IsVertical(p: Primitive) {
    p.Line? && p.x0 == p.x1
  }

  predicate IsHorizontal(p: Primitive) {
    p.Line? && p.y0 == p.y1
  }

  /** A line with both ends in the frame, or a circle whose centre is in the frame. */
  predicate AnchoredIn(p: Primitive, f: Rect) {
    match p
    case Line(x0, y0, x1, y1) => f.Contains(x0, y0) && f.Contains(x1, y1)
    case Circle(cx, cy, _) => f.Contains(cx, cy)
  }

  /** The whole disc or segment lies in the frame (a segment lies in a rectangle iff its ends do). */
  predicate WhollyIn(p: Primitive, f: Rect) {
    match p
    case Line(x0, y0, x1, y1) => f.Contains(x0, y0) && f.Contains(x1, y1)
    case Circle(cx, cy, r) => f.left <= cx - r && cx + r <= f.right && f.top <= cy - r && cy + r <= f.bottom
  }

  /** The whole overlay for one redraw: the clear frame and its grid. */
  datatype Drawing = Drawing(frame: Rect, grid: seq<Primitive>)

  /** The view's mutable state: the format and grid last set on it. */
  class OverlayView {
    var currentAspectRatio: AspectRatio
    var currentGridType: GridType

    constructor ()
      ensures currentAspectRatio == Square && currentGridType == Thirds
    {
      currentAspectRatio := Square;
      currentGridType := Thirds;
    }

    method SetAspectRatio(aspectRatio: AspectRatio)
      modifies this
      ensures currentAspectRatio == aspectRatio
      ensures currentGridType == old(currentGridType)
    {
      currentAspectRatio := aspectRatio;
    }

    method SetGridType(gridType: GridType)
      modifies this
      ensures currentGridType == gridType
      ensures currentAspectRatio == old(currentAspectRatio)
    {
      currentGridType := gridType;
    }

    /** What `onDraw` computes for a view of the given size. */
    function Draw(viewWidth: real, viewHeight: real): (d: Drawing)
      requires viewWidth >= 0.0 && viewHeight >= 0.0
      reads this
      ensures d.frame == Frame(viewWidth, viewHeight, currentAspectRatio)
      ensures d.grid == GridPrimitives(d.frame, currentGridType)
    {
      var f := Frame(viewWidth, viewHeight, currentAspectRatio);
      Drawing(f, GridPrimitives(f, currentGridType))
    }
  }

  // ---------------------------------------------------------------------------
  // Properties of the grid table

  /** Exactly the three variants with no drawing code produce nothing. */
  lemma EmptyGrids(f: Rect, grid: GridType)
    ensures GridPrimitives(f, grid) == [] <==> grid in {None, LeadingLines, NaturalFrame}
  {
  }

  /**
   * Thirds: two vertical lines at one and two thirds of the width spanning the frame's
   * height, two horizontal lines at one and two thirds of the height spanning its width.
   */
  lemma ThirdsGrid(f: Rect)
    requires f.left <= f.right && f.top <= f.bottom
    ensures var g := GridPrimitives(f, Thirds);
      && |g| == 4
      && (forall i :: 0 <= i < 2 ==> IsVertical(g[i]) && g[i].y0 == f.top && g[i].y1 == f.bottom)
      && (forall i :: 2 <= i < 4 ==> IsHorizontal(g[i]) && g[i].x0 == f.left && g[i].x1 == f.right)
      && 3.0 * (g[0].x0 - f.left) == f.Width() && 3.0 * (g[1].x0 - f.left) == 2.0 * f.Width()
      && 3.0 * (g[2].y0 - f.top) == f.Height() && 3.0 * (g[3].y0 - f.top) == 2.0 * f.Height()
      && forall i :: 0 <= i < 4 ==> AnchoredIn(g[i], f)
  {
  }

  /**
   * Thirds+: the four thirds lines, then one circle of radius 25 on each of the four
   * points where a vertical line crosses a horizontal one.
   */
  lemma IntersectionMarkers(f: Rect)
    requires f.left <= f.right && f.top <= f.bottom
    ensures var g := GridPrimitives(f, ThirdsIntersections);
      && |g| == 8
      && g[..4] == GridPrimitives(f, Thirds)
      && (forall k :: 4 <= k < 8 ==> g[k].Circle? && g[k].radius == MarkerRadius && AnchoredIn(g[k], f))
      && (forall v, h :: 0 <= v < 2 && 2 <= h < 4 ==>
            exists k :: 4 <= k < 8 && g[k].cx == g[v].x0 && g[k].cy == g[h].y0)
      && (forall k :: 4 <= k < 8 ==>
            exists v, h :: 0 <= v < 2 && 2 <= h < 4 && g[k].cx == g[v].x0 && g[k].cy == g[h].y0)
  {
    var g := GridPrimitives(f, ThirdsIntersections);
    assert g[4].cx == g[0].x0 && g[4].cy == g[2].y0;
    assert g[5].cx == g[1].x0 && g[5].cy == g[2].y0;
    assert g[6].cx == g[0].x0 && g[6].cy == g[3].y0;
    assert g[7].cx == g[1].x0 && g[7].cy == g[3].y0;
  }

  /**
   * Whether the "Thirds+" drawing stays out of the dimmed area around the frame: every
   * line lies in the frame, and a marker's disc does exactly when a third of the frame
   * is at least the marker radius in both directions.
   */
  lemma MarkersInsideFrameIff(f: Rect)
    requires f.left <= f.right && f.top <= f.bottom
    ensures var g := GridPrimitives(f, ThirdsIntersections);
      (forall k :: 0 <= k < 8 ==> WhollyIn(g[k], f)) <==>
        (f.Width() / 3.0 >= MarkerRadius && f.Height() / 3.0 >= MarkerRadius)
  {
    var g := GridPrimitives(f, ThirdsIntersections);
    if forall k :: 0 <= k < 8 ==> WhollyIn(g[k], f) {
      assert WhollyIn(g[4], f);
    }
  }

  /** Cross: one vertical and one horizontal line through the frame's centre, each spanning it. */
  lemma CenterCrossGrid(f: Rect)
    requires f.left <= f.right && f.top <= f.bottom
    ensures var g := GridPrimitives(f, CenterCross);
      && |g| == 2
      && IsVertical(g[0]) && g[0].x0 - f.left == f.right - g[0].x0
      && g[0].y0 == f.top && g[0].y1 == f.bottom
      && IsHorizontal(g[1]) && g[1].y0 - f.top == f.bottom - g[1].y0
      && g[1].x0 == f.left && g[1].x1 == f.right
      && AnchoredIn(g[0], f) && AnchoredIn(g[1], f)
  {
  }

  /** Headroom: a single horizontal line one third down the frame, spanning its width. */
  lemma HeadroomGrid(f: Rect)
    requires f.left <= f.right && f.top <= f.bottom
    ensures var g := GridPrimitives(f, HeadroomGuide);
      && |g| == 1 && IsHorizontal(g[0])
      && 3.0 * (g[0].y0 - f.top) == f.Height()
      && g[0].x0 == f.left && g[0].x1 == f.right
      && AnchoredIn(g[0], f)
  {
  }

  /** Every grid's primitives are anchored in the frame they are drawn for. */
  lemma GridAnchoredInFrame(f: Rect, grid: GridType)
    requires f.left <= f.right && f.top <= f.bottom
    ensures var g := GridPrimitives(f, grid);
      forall i :: 0 <= i < |g| ==> AnchoredIn(g[i], f)
  {
    match grid
    case Thirds => ThirdsGrid(f);
    case CenterCross => CenterCrossGrid(f);
    case ThirdsIntersections =>
      var g := GridPrimitives(f, grid);
      ThirdsGrid(f);
      assert g[..4] == GridPrimitives(f, Thirds);
      assert forall k :: 4 <= k < 8 ==> AnchoredIn(g[k], f);
    case HeadroomGuide => HeadroomGrid(f);
    case _ =>
  }
}
