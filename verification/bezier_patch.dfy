/**
 * One bicubic patch of the gradient mesh (`src/BezierPatch.ts`): a 4×4 grid of
 * control points whose twelve boundary points are edited and whose four
 * interior points are derived from them by the Coons formula, a surface
 * evaluator that blends the four cubic boundary curves, a colour evaluator
 * over the four corner colours, and the select/drag state machine of the
 * mouse handlers.
 *
 * Grid indices are `cp[row][col]`; row 0 is the top edge, column 0 the left.
 */
module BezierPatches {
  import opened Options
  import opened Points
  import opened Bezier
  import opened Nearest

  type Grid = seq<seq<Point>>

  /** A grid slot, as the `{row, col}` records of the source. */
  datatype Slot = Slot(row: int, col: int)

  /**
   * Patch state: the grid, the slot being dragged, the slot under the
   * pointer, and the drag flag.
   */
  datatype Patch = Patch(cp: Grid, selected: Option<Slot>, hovered: Option<Slot>, dragging: bool)

  /** The result of the nearest-point scan; `dist2` is the squared distance. */
  datatype NearestSlot = NearestSlot(row: int, col: int, dist2: real)

  const Red: Color := Color(255.0, 0.0, 0.0, 1.0)
  const Green: Color := Color(0.0, 255.0, 0.0, 1.0)
  const Blue: Color := Color(0.0, 0.0, 255.0, 1.0)
  const Yellow: Color := Color(255.0, 255.0, 0.0, 1.0)

  // ---------------------------------------------------------------------------
  // Grid shape

  predicate WellFormed(cp: Grid)
  {
    |cp| == 4 && forall i :: 0 <= i < 4 ==> |cp[i]| == 4
  }

  predicate InGrid(row: int, col: int)
  {
    0 <= row < 4 && 0 <= col < 4
  }

  /** The source's boundary test: some index is 0 or 3. It also holds of indices outside the grid. */
  predicate IsBoundary(row: int, col: int)
  {
    row == 0 || row == 3 || col == 0 || col == 3
  }

  predicate IsCorner(row: int, col: int)
  {
    (row == 0 || row == 3) && (col == 0 || col == 3)
  }

  /** The eight boundary slots that are not corners. */
  predicate IsEdge(row: int, col: int)
  {
    InGrid(row, col) && IsBoundary(row, col) && !IsCorner(row, col)
  }

  predicate IsInterior(row: int, col: int)
  {
    1 <= row <= 2 && 1 <= col <= 2
  }

  predicate CornersColored(cp: Grid)
    requires WellFormed(cp)
  {
    cp[0][0].color.Some? && cp[0][3].color.Some? && cp[3][0].color.Some? && cp[3][3].color.Some?
  }

  predicate BoundarySlot(s: Option<Slot>)
  {
    s.Some? ==> InGrid(s.value.row, s.value.col) && IsBoundary(s.value.row, s.value.col)
  }

  /**
   * What every patch the constructor builds satisfies and every operation
   * keeps: a 4×4 grid, coloured corners, and selection/hover only ever on a
   * boundary slot.
   */
  predicate Valid(p: Patch)
  {
    WellFormed(p.cp) && CornersColored(p.cp) && BoundarySlot(p.selected) && BoundarySlot(p.hovered)
  }

  /** Two grids with the same boundary positions (colours and interior may differ). */
  ghost predicate SameBoundaryPositions(a: Grid, b: Grid)
    requires WellFormed(a) && WellFormed(b)
  {
    forall i, j :: InGrid(i, j) && IsBoundary(i, j) ==> a[i][j].x == b[i][j].x && a[i][j].y == b[i][j].y
  }

  // ---------------------------------------------------------------------------
  // Interpolation helpers

  /** `linearInterpolate`: a fresh point between p0 (t = 0) and p1 (t = 1). */
  function LinearInterpolate(p0: Point, p1: Point, t: real): (r: Point)
    ensures t == 0.0 ==> r.x == p0.x && r.y == p0.y
    ensures t == 1.0 ==> r.x == p1.x && r.y == p1.y
  {
    NewPoint(Mix(p0.x, p1.x, t), Mix(p0.y, p1.y, t))
  }

  /** Bilinear blend of four corner values a00 (u=v=0), a10 (u=1), a11 (u=v=1), a01 (v=1). */
  function Bilinear(a00: real, a10: real, a11: real, a01: real, u: real, v: real): real
  {
    (1.0 - u) * (1.0 - v) * a00 + u * (1.0 - v) * a10 + u * v * a11 + (1.0 - u) * v * a01
  }

  /** `bilinearInterpolate` over the corners in the order top-left, top-right, bottom-right, bottom-left. */
  function BilinearInterpolate(p00: Point, p10: Point, p11: Point, p01: Point, u: real, v: real): (r: Point)
    ensures u == 0.0 && v == 0.0 ==> r.x == p00.x && r.y == p00.y
    ensures u == 1.0 && v == 0.0 ==> r.x == p10.x && r.y == p10.y
    ensures u == 1.0 && v == 1.0 ==> r.x == p11.x && r.y == p11.y
    ensures u == 0.0 && v == 1.0 ==> r.x == p01.x && r.y == p01.y
  {
    NewPoint(Bilinear(p00.x, p10.x, p11.x, p01.x, u, v), Bilinear(p00.y, p10.y, p11.y, p01.y, u, v))
  }

  /** `interpolateEdgeColor`: componentwise linear interpolation of the four channels. */
  function InterpolateEdgeColor(c1: Color, c2: Color, t: real): (c: Color)
    ensures t == 0.0 ==> c == c1
    ensures t == 1.0 ==> c == c2
    ensures c1 == c2 ==> c == c1
  {
    Color(Mix(c1.r, c2.r, t), Mix(c1.g, c2.g, t), Mix(c1.b, c2.b, t), Mix(c1.a, c2.a, t))
  }

  /** Cubic Bézier through four points under the basis values b. */
  function BezierCurve(p0: Point, p1: Point, p2: Point, p3: Point, b: seq<real>): Point
    requires |b| == 4
  {
    NewPoint(CubicSum(p0.x, p1.x, p2.x, p3.x, b), CubicSum(p0.y, p1.y, p2.y, p3.y, b))
  }

  // ---------------------------------------------------------------------------
  // Construction

  /** Parameter of the first (0.33) or second (0.67) non-corner point along an edge. */
  function EdgeParameter(k: int): real
  {
    if k == 1 then 0.33 else 0.67
  }

  /**
   * The colour a non-corner boundary point gets: top and bottom edge points
   * interpolate between the corners of their row, left and right edge points
   * between the corners of their column.
   */
  function DerivedEdgeColor(cp: Grid, row: int, col: int): Color
    requires WellFormed(cp) && CornersColored(cp) && IsEdge(row, col)
  {
    if row == 0 || row == 3 then
      InterpolateEdgeColor(cp[row][0].color.value, cp[row][3].color.value, EdgeParameter(col))
    else
      InterpolateEdgeColor(cp[0][col].color.value, cp[3][col].color.value, EdgeParameter(row))
  }

  ghost predicate EdgeColorsDerived(cp: Grid)
    requires WellFormed(cp) && CornersColored(cp)
  {
    forall i, j :: IsEdge(i, j) ==> cp[i][j].color == Some(DerivedEdgeColor(cp, i, j))
  }

  function SetColor(cp: Grid, row: int, col: int, c: Color): (r: Grid)
    requires WellFormed(cp) && InGrid(row, col)
    ensures WellFormed(r)
  {
    cp[row := cp[row][col := cp[row][col].(color := Some(c))]]
  }

  /** `initializeEdgeColors`: the eight edge-point colours, written one by one as the source does. */
  function InitializeEdgeColors(cp: Grid): (r: Grid)
    requires WellFormed(cp) && CornersColored(cp)
    ensures WellFormed(r) && CornersColored(r)
    ensures EdgeColorsDerived(r)
    ensures forall i, j :: InGrid(i, j) ==> r[i][j].x == cp[i][j].x && r[i][j].y == cp[i][j].y
    ensures forall i, j :: InGrid(i, j) ==> r[i][j] == cp[i][j].(color := r[i][j].color)
    ensures forall i, j :: InGrid(i, j) && !IsEdge(i, j) ==> r[i][j] == cp[i][j]
  {
    var tl, tr, br, bl := cp[0][0].color.value, cp[0][3].color.value, cp[3][3].color.value, cp[3][0].color.value;
    var g := SetColor(cp, 0, 1, InterpolateEdgeColor(tl, tr, 0.33));
    var g := SetColor(g, 0, 2, InterpolateEdgeColor(tl, tr, 0.67));
    var g := SetColor(g, 1, 3, InterpolateEdgeColor(tr, br, 0.33));
    var g := SetColor(g, 2, 3, InterpolateEdgeColor(tr, br, 0.67));
    var g := SetColor(g, 3, 1, InterpolateEdgeColor(bl, br, 0.33));
    var g := SetColor(g, 3, 2, InterpolateEdgeColor(bl, br, 0.67));
    var g := SetColor(g, 1, 0, InterpolateEdgeColor(tl, bl, 0.33));
    SetColor(g, 2, 0, InterpolateEdgeColor(tl, bl, 0.67))
  }

  /**
   * The Coons point for slot (i, j) at u = j/3, v = i/3: the blend of the row's
   * end points plus the blend of the column's end points minus the bilinear
   * blend of the four corners. The patch uses it for the interior slots only.
   */
  function CoonsPoint(cp: Grid, i: int, j: int): (q: Point)
    requires WellFormed(cp) && InGrid(i, j)
    ensures q == NewPoint(q.x, q.y)
  {
    CoonsFormula(cp[i][0], cp[i][3], cp[0][j], cp[3][j], cp[0][0], cp[0][3], cp[3][3], cp[3][0], j as real / 3.0, i as real / 3.0)
  }

  /** The Coons combination for one slot, given the slot's row ends, column ends, the four corners and (u, v). */
  function CoonsFormula(left: Point, right: Point, top: Point, bottom: Point,
                        c00: Point, c10: Point, c11: Point, c01: Point, u: real, v: real): Point
  {
    var horizontal := LinearInterpolate(left, right, u);
    var vertical := LinearInterpolate(top, bottom, v);
    var corners := BilinearInterpolate(c00, c10, c11, c01, u, v);
    NewPoint(horizontal.x + vertical.x - corners.x, horizontal.y + vertical.y - corners.y)
  }

  /** `calculateInteriorPoints`: rewrites the four interior slots, in the source's loop order, and nothing else. */
  function CalculateInteriorPoints(cp: Grid): (r: Grid)
    requires WellFormed(cp)
    ensures WellFormed(r)
    ensures forall i, j :: InGrid(i, j) && !IsInterior(i, j) ==> r[i][j] == cp[i][j]
    ensures r[1][1] == CoonsPoint(cp, 1, 1) && r[1][2] == CoonsPoint(cp, 1, 2)
    ensures r[2][1] == CoonsPoint(cp, 2, 1) && r[2][2] == CoonsPoint(cp, 2, 2)
  {
    var q11, q12 := CoonsPoint(cp, 1, 1), CoonsPoint(cp, 1, 2);
    var q21, q22 := CoonsPoint(cp, 2, 1), CoonsPoint(cp, 2, 2);
    cp[1 := cp[1][1 := q11][2 := q12]][2 := cp[2][1 := q21][2 := q22]]
  }

  /** The interior is what the Coons formula derives from the current boundary. */
  ghost predicate InteriorDerived(cp: Grid)
    requires WellFormed(cp)
  {
    && cp[1][1] == CoonsPoint(cp, 1, 1) && cp[1][2] == CoonsPoint(cp, 1, 2)
    && cp[2][1] == CoonsPoint(cp, 2, 1) && cp[2][2] == CoonsPoint(cp, 2, 2)
  }

  /** Both derived-data invariants together with the shape invariant. */
  ghost predicate Consistent(p: Patch)
  {
    Valid(p) && InteriorDerived(p.cp) && EdgeColorsDerived(p.cp)
  }

  /** Placeholder for the interior slots before `calculateInteriorPoints` fills them. */
  const Unset: Point := NewPoint(0.0, 0.0)

  /** The grid `initControlPoints` lays out: corners, evenly spaced edge points, unset interior. */
  function InitialGrid(x: real, y: real, width: real, height: real): (g: Grid)
    ensures WellFormed(g) && CornersColored(g)
  {
    [
      [NewPoint(x, y).(color := Some(Red)), NewPoint(x + width * 0.33, y),
       NewPoint(x + width * 0.67, y), NewPoint(x + width, y).(color := Some(Green))],
      [NewPoint(x, y + height * 0.33), Unset, Unset, NewPoint(x + width, y + height * 0.33)],
      [NewPoint(x, y + height * 0.67), Unset, Unset, NewPoint(x + width, y + height * 0.67)],
      [NewPoint(x, y + height).(color := Some(Yellow)), NewPoint(x + width * 0.33, y + height),
       NewPoint(x + width * 0.67, y + height), NewPoint(x + width, y + height).(color := Some(Blue))]
    ]
  }

  /**
   * The constructor: the initial layout, then `initializeEdgeColors` and
   * `calculateInteriorPoints`. Boundary positions and corners are those of
   * the layout.
   */
  function NewPatch(x: real, y: real, width: real, height: real): (p: Patch)
    ensures Consistent(p)
    ensures p.selected == None && p.hovered == None && !p.dragging
    ensures SameBoundaryPositions(p.cp, InitialGrid(x, y, width, height))
    ensures var g := InitialGrid(x, y, width, height);
      p.cp[0][0] == g[0][0] && p.cp[0][3] == g[0][3] && p.cp[3][3] == g[3][3] && p.cp[3][0] == g[3][0]
    ensures var g := InitialGrid(x, y, width, height);
      forall i, j :: InGrid(i, j) && IsBoundary(i, j) ==> p.cp[i][j] == g[i][j].(color := p.cp[i][j].color)
  {
    var grid := InitialGrid(x, y, width, height);
    ColorThenDerive(grid);
    Patch(CalculateInteriorPoints(InitializeEdgeColors(grid)), None, None, false)
  }

  /**
   * Deriving the edge colours and then the interior of a grid with coloured
   * corners gives a consistent grid with the same boundary positions and corners.
   */
  lemma ColorThenDerive(g: Grid)
    requires WellFormed(g) && CornersColored(g)
    ensures var cp := CalculateInteriorPoints(InitializeEdgeColors(g));
      && WellFormed(cp) && CornersColored(cp) && InteriorDerived(cp) && EdgeColorsDerived(cp)
      && SameBoundaryPositions(cp, g)
      && cp[0][0] == g[0][0] && cp[0][3] == g[0][3] && cp[3][3] == g[3][3] && cp[3][0] == g[3][0]
  {
    var edged := InitializeEdgeColors(g);
    var cp := CalculateInteriorPoints(edged);
    CalculateInteriorPointsDerives(edged);
    EdgeColorsDependOnBoundary(edged, cp);
  }

  // ---------------------------------------------------------------------------
  // Evaluation

  /**
   * `evaluatePoint`: clamps u and v to [0, 1] and returns the Coons blend of
   * the four cubic boundary curves, minus the bilinear corner term.
   */
  function EvaluatePoint(p: Patch, u0: real, v0: real): (q: Point)
    requires WellFormed(p.cp)
    ensures q == NewPoint(q.x, q.y)
  {
    var u, v := Clamp01(u0), Clamp01(v0);
    CoonsSurface(p.cp, BernsteinCoefficients(u), BernsteinCoefficients(v), u, v)
  }

  /**
   * The body of `evaluatePoint` after clamping, for given basis values bu, bv
   * at parameters u, v: the top and bottom curves blended along v, the left
   * and right curves blended along u, minus the bilinear corner term.
   */
  function CoonsSurface(cp: Grid, bu: seq<real>, bv: seq<real>, u: real, v: real): Point
    requires WellFormed(cp) && |bu| == 4 && |bv| == 4
  {
    var top := BezierCurve(cp[0][0], cp[0][1], cp[0][2], cp[0][3], bu);
    var bottom := BezierCurve(cp[3][0], cp[3][1], cp[3][2], cp[3][3], bu);
    var left := BezierCurve(cp[0][0], cp[1][0], cp[2][0], cp[3][0], bv);
    var right := BezierCurve(cp[0][3], cp[1][3], cp[2][3], cp[3][3], bv);
    var bilinear := BilinearInterpolate(cp[0][0], cp[0][3], cp[3][3], cp[3][0], u, v);
    NewPoint(
      CoonsBlend(top.x, bottom.x, left.x, right.x, bilinear.x, u, v),
      CoonsBlend(top.y, bottom.y, left.y, right.y, bilinear.y, u, v))
  }

  /** The Coons combination of one coordinate: the two ruled surfaces minus the bilinear corner term. */
  function CoonsBlend(top: real, bottom: real, left: real, right: real, bilinear: real, u: real, v: real): real
  {
    top * (1.0 - v) + bottom * v + left * (1.0 - u) + right * u - bilinear
  }

  /**
   * `evaluateColor` up to the colour value: the corner colours blended along
   * u, then along v. Each channel comes out as the bilinear blend of that
   * channel of the four corner colours.
   */
  function EvaluateColor(p: Patch, u: real, v: real): (c: Color)
    requires WellFormed(p.cp) && CornersColored(p.cp)
    ensures var tl, tr, br, bl := p.cp[0][0].color.value, p.cp[0][3].color.value, p.cp[3][3].color.value, p.cp[3][0].color.value;
      && c.r == Bilinear(tl.r, tr.r, br.r, bl.r, u, v)
      && c.g == Bilinear(tl.g, tr.g, br.g, bl.g, u, v)
      && c.b == Bilinear(tl.b, tr.b, br.b, bl.b, u, v)
      && c.a == Bilinear(tl.a, tr.a, br.a, bl.a, u, v)
  {
    var cp := p.cp;
    var tl, tr, br, bl := cp[0][0].color.value, cp[0][3].color.value, cp[3][3].color.value, cp[3][0].color.value;
    NestedMixIsBilinear(tl.r, tr.r, br.r, bl.r, u, v);
    NestedMixIsBilinear(tl.g, tr.g, br.g, bl.g, u, v);
    NestedMixIsBilinear(tl.b, tr.b, br.b, bl.b, u, v);
    NestedMixIsBilinear(tl.a, tr.a, br.a, bl.a, u, v);
    var topColor := InterpolateEdgeColor(tl, tr, u);
    var bottomColor := InterpolateEdgeColor(bl, br, u);
    InterpolateEdgeColor(topColor, bottomColor, v)
  }

  // ---------------------------------------------------------------------------
  // Editing

  /**
   * `moveControlPoint`. An interior slot (no index 0 or 3) is left alone. A
   * boundary slot outside the grid (say row 0, col 7) makes the source write
   * through `undefined`, a TypeError: `None` here. Otherwise the slot's
   * position is replaced and the interior recomputed.
   */
  function MoveControlPoint(p: Patch, row: int, col: int, x: real, y: real): (r: Option<Patch>)
    requires WellFormed(p.cp)
    ensures !IsBoundary(row, col) ==> r == Some(p)
    ensures IsBoundary(row, col) && !InGrid(row, col) ==> r == None
    ensures IsBoundary(row, col) && InGrid(row, col) ==> r == Some(p.(cp := MoveGrid(p.cp, row, col, x, y)))
  {
    if !IsBoundary(row, col) then Some(p)
    else if !InGrid(row, col) then None
    else Some(p.(cp := MoveGrid(p.cp, row, col, x, y)))
  }

  /**
   * The grid after a boundary point moves: the slot gets the new position
   * (its colour stays), every other boundary slot is unchanged, and the
   * interior is recomputed from the new boundary.
   */
  function MoveGrid(cp: Grid, row: int, col: int, x: real, y: real): (r: Grid)
    requires WellFormed(cp) && InGrid(row, col) && IsBoundary(row, col)
    ensures WellFormed(r)
    ensures r[row][col] == cp[row][col].(x := x, y := y)
    ensures forall i, j :: InGrid(i, j) && IsBoundary(i, j) && (i, j) != (row, col) ==> r[i][j] == cp[i][j]
    ensures forall i, j :: InGrid(i, j) && !IsInterior(i, j) ==> r[i][j].color == cp[i][j].color
    ensures InteriorDerived(r)
  {
    var moved := SetPoint(cp, row, col, cp[row][col].(x := x, y := y));
    CalculateInteriorPointsDerives(moved);
    CalculateInteriorPoints(moved)
  }

  /** The grid with slot (row, col) replaced by `pt`. */
  function SetPoint(cp: Grid, row: int, col: int, pt: Point): (r: Grid)
    requires WellFormed(cp) && InGrid(row, col)
    ensures WellFormed(r) && r[row][col] == pt
    ensures forall i, j :: InGrid(i, j) && (i, j) != (row, col) ==> r[i][j] == cp[i][j]
  {
    cp[row := cp[row][col := pt]]
  }

  /**
   * `getControlPoint`. Outside the grid the source reads past its arrays: a
   * row outside 0..3 throws a TypeError and a column outside 0..3 yields
   * `undefined`; both become `None` here.
   */
  function GetControlPoint(p: Patch, row: int, col: int): (r: Option<Point>)
    requires WellFormed(p.cp)
    ensures r.Some? <==> InGrid(row, col)
    ensures InGrid(row, col) ==> r.value == p.cp[row][col]
  {
    if InGrid(row, col) then Some(p.cp[row][col]) else None
  }

  // ---------------------------------------------------------------------------
  // Nearest boundary point and the mouse handlers

  /** The twelve boundary slots in the row-major order of the source's double loop. */
  const BoundarySlots: seq<Slot> := [
    Slot(0, 0), Slot(0, 1), Slot(0, 2), Slot(0, 3),
    Slot(1, 0), Slot(1, 3),
    Slot(2, 0), Slot(2, 3),
    Slot(3, 0), Slot(3, 1), Slot(3, 2), Slot(3, 3)
  ]

  /** Position of slot (row, col) in row-major order. */
  function RowMajor(row: int, col: int): int { 4 * row + col }

  /** Where boundary slot (row, col) sits in `BoundarySlots`. */
  function SlotIndex(row: int, col: int): (k: nat)
    requires InGrid(row, col) && IsBoundary(row, col)
    ensures k < 12 && BoundarySlots[k] == Slot(row, col)
  {
    if row == 0 then col else if row == 1 then 4 + col / 3 else if row == 2 then 6 + col / 3 else 8 + col
  }

  /** `BoundarySlots` lists exactly the boundary slots, in increasing row-major order. */
  lemma BoundarySlotsOrdered()
    ensures |BoundarySlots| == 12
    ensures forall k :: 0 <= k < 12 ==>
      InGrid(BoundarySlots[k].row, BoundarySlots[k].col) && IsBoundary(BoundarySlots[k].row, BoundarySlots[k].col)
      && SlotIndex(BoundarySlots[k].row, BoundarySlots[k].col) == k
    ensures forall i, j, i', j' ::
      InGrid(i, j) && IsBoundary(i, j) && InGrid(i', j') && IsBoundary(i', j') && RowMajor(i, j) < RowMajor(i', j')
      ==> SlotIndex(i, j) < SlotIndex(i', j')
  {
  }

  function SlotDist2(cp: Grid, s: Slot, x: real, y: real): real
    requires WellFormed(cp) && InGrid(s.row, s.col)
  {
    Dist2(cp[s.row][s.col].x, cp[s.row][s.col].y, x, y)
  }

  /**
   * `findNearestControlPoint`: a boundary slot of least distance to (x, y),
   * the first one in row-major order on ties; interior slots are skipped.
   */
  function FindNearestControlPoint(p: Patch, x: real, y: real): (n: NearestSlot)
    requires WellFormed(p.cp)
    ensures InGrid(n.row, n.col) && IsBoundary(n.row, n.col)
    ensures n.dist2 == Dist2(p.cp[n.row][n.col].x, p.cp[n.row][n.col].y, x, y)
    ensures forall i, j :: InGrid(i, j) && IsBoundary(i, j) ==>
      n.dist2 <= Dist2(p.cp[i][j].x, p.cp[i][j].y, x, y)
    ensures forall i, j :: InGrid(i, j) && IsBoundary(i, j) && RowMajor(i, j) < RowMajor(n.row, n.col) ==>
      n.dist2 < Dist2(p.cp[i][j].x, p.cp[i][j].y, x, y)
  {
    BoundarySlotsOrdered();
    var ds := seq(12, k requires 0 <= k < 12 => SlotDist2(p.cp, BoundarySlots[k], x, y));
    var k := FirstMin(ds);
    var s := BoundarySlots[k];
    forall i, j | InGrid(i, j) && IsBoundary(i, j)
      ensures ds[k] <= SlotDist2(p.cp, Slot(i, j), x, y)
      ensures RowMajor(i, j) < RowMajor(s.row, s.col) ==> ds[k] < SlotDist2(p.cp, Slot(i, j), x, y)
    {
      var l := SlotIndex(i, j);
      assert ds[l] == SlotDist2(p.cp, Slot(i, j), x, y);
    }
    NearestSlot(s.row, s.col, ds[k])
  }

  /** Boundary slot (i, j) is within the hit radius of (x, y). */
  predicate HitAt(cp: Grid, i: int, j: int, x: real, y: real)
    requires WellFormed(cp)
  {
    InGrid(i, j) && IsBoundary(i, j) && Dist2(cp[i][j].x, cp[i][j].y, x, y) < HitRadius2
  }

  /** Some boundary point is within the hit radius of (x, y). */
  ghost predicate AnyHit(cp: Grid, x: real, y: real)
    requires WellFormed(cp)
  {
    exists i, j :: HitAt(cp, i, j, x, y)
  }

  /**
   * Slot s is no farther from (x, y) than any boundary slot, and every boundary
   * slot before it in row-major order is strictly farther: s is the first
   * nearest slot, so ties go to the earlier slot.
   */
  ghost predicate NearestTo(cp: Grid, s: Slot, x: real, y: real)
    requires WellFormed(cp) && InGrid(s.row, s.col)
  {
    && (forall i, j :: InGrid(i, j) && IsBoundary(i, j) ==> SlotDist2(cp, s, x, y) <= Dist2(cp[i][j].x, cp[i][j].y, x, y))
    && (forall i, j :: InGrid(i, j) && IsBoundary(i, j) && RowMajor(i, j) < RowMajor(s.row, s.col) ==>
          SlotDist2(cp, s, x, y) < Dist2(cp[i][j].x, cp[i][j].y, x, y))
  }

  /**
   * `handleMouseMove`: while dragging a selected slot, move that point to the
   * pointer; otherwise update the hover.
   */
  function HandleMouseMove(p: Patch, x: real, y: real): (r: Patch)
    requires Valid(p)
    ensures Valid(r)
    ensures p.dragging && p.selected.Some? ==> r == DragTo(p, x, y)
    ensures !(p.dragging && p.selected.Some?) ==> r == HoverAt(p, x, y)
  {
    if p.dragging && p.selected.Some? then DragTo(p, x, y) else HoverAt(p, x, y)
  }

  /** The dragging branch of `handleMouseMove`: the selected point follows the pointer, hover is untouched. */
  function DragTo(p: Patch, x: real, y: real): (r: Patch)
    requires Valid(p) && p.selected.Some?
    ensures Valid(r)
    ensures var s := p.selected.value;
      && r.cp[s.row][s.col] == p.cp[s.row][s.col].(x := x, y := y)
      && (forall i, j :: InGrid(i, j) && IsBoundary(i, j) && (i, j) != (s.row, s.col) ==> r.cp[i][j] == p.cp[i][j])
      && InteriorDerived(r.cp)
      && r.selected == p.selected && r.hovered == p.hovered && r.dragging == p.dragging
  {
    MoveControlPoint(p, p.selected.value.row, p.selected.value.col, x, y).value
  }

  /** The hover branch of `handleMouseMove`: hover the first nearest boundary point if it is within the hit radius, or nothing. */
  function HoverAt(p: Patch, x: real, y: real): (r: Patch)
    requires Valid(p)
    ensures Valid(r)
    ensures r.cp == p.cp && r.selected == p.selected && r.dragging == p.dragging
    ensures r.hovered.Some? <==> AnyHit(p.cp, x, y)
    ensures r.hovered.Some? ==> HitAt(p.cp, r.hovered.value.row, r.hovered.value.col, x, y) && NearestTo(p.cp, r.hovered.value, x, y)
  {
    var n := FindNearestControlPoint(p, x, y);
    assert n.dist2 < HitRadius2 ==> HitAt(p.cp, n.row, n.col, x, y);
    p.(hovered := if n.dist2 < HitRadius2 then Some(Slot(n.row, n.col)) else None)
  }

  /**
   * `handleMouseDown`: when some boundary point is within the hit radius,
   * select the first nearest one and start dragging; otherwise change nothing.
   */
  function HandleMouseDown(p: Patch, x: real, y: real): (r: Patch)
    requires Valid(p)
    ensures Valid(r)
    ensures r.cp == p.cp && r.hovered == p.hovered
    ensures AnyHit(p.cp, x, y) ==>
      && r.dragging && r.selected.Some?
      && HitAt(p.cp, r.selected.value.row, r.selected.value.col, x, y)
      && NearestTo(p.cp, r.selected.value, x, y)
    ensures !AnyHit(p.cp, x, y) ==> r == p
  {
    var n := FindNearestControlPoint(p, x, y);
    assert n.dist2 < HitRadius2 ==> HitAt(p.cp, n.row, n.col, x, y);
    if n.dist2 < HitRadius2 && IsBoundary(n.row, n.col) then
      p.(selected := Some(Slot(n.row, n.col)), dragging := true)
    else
      p
  }

  /** `handleMouseUp`: stop dragging and drop the selection. */
  function HandleMouseUp(p: Patch): (r: Patch)
    ensures !r.dragging && r.selected == None
    ensures r.cp == p.cp && r.hovered == p.hovered
    ensures Valid(p) ==> Valid(r)
  {
    p.(dragging := false, selected := None)
  }

  // ---------------------------------------------------------------------------
  // Properties

  /** The Coons point of an interior slot reads only boundary slots. */
  lemma CoonsPointReadsBoundary(a: Grid, b: Grid, i: int, j: int)
    requires WellFormed(a) && WellFormed(b) && InGrid(i, j)
    requires forall i', j' :: InGrid(i', j') && !IsInterior(i', j') ==> a[i'][j'] == b[i'][j']
    ensures CoonsPoint(a, i, j) == CoonsPoint(b, i, j)
  {
    assert a[i][0] == b[i][0] && a[i][3] == b[i][3] && a[0][j] == b[0][j] && a[3][j] == b[3][j];
    assert a[0][0] == b[0][0] && a[0][3] == b[0][3] && a[3][3] == b[3][3] && a[3][0] == b[3][0];
  }

  /** After `calculateInteriorPoints` the interior is derived from the (unchanged) boundary. */
  lemma CalculateInteriorPointsDerives(cp: Grid)
    requires WellFormed(cp)
    ensures InteriorDerived(CalculateInteriorPoints(cp))
  {
    var r := CalculateInteriorPoints(cp);
    CoonsPointReadsBoundary(cp, r, 1, 1);
    CoonsPointReadsBoundary(cp, r, 1, 2);
    CoonsPointReadsBoundary(cp, r, 2, 1);
    CoonsPointReadsBoundary(cp, r, 2, 2);
  }

  /** Edge colours are read from boundary slots only, so grids that agree off the interior agree on them. */
  lemma EdgeColorsDependOnBoundary(a: Grid, b: Grid)
    requires WellFormed(a) && WellFormed(b) && CornersColored(a)
    requires forall i, j :: InGrid(i, j) && !IsInterior(i, j) ==> a[i][j].color == b[i][j].color
    requires EdgeColorsDerived(a)
    ensures CornersColored(b) && EdgeColorsDerived(b)
  {
    assert a[0][0].color == b[0][0].color && a[0][3].color == b[0][3].color;
    assert a[3][3].color == b[3][3].color && a[3][0].color == b[3][0].color;
    forall i, j | IsEdge(i, j) ensures b[i][j].color == Some(DerivedEdgeColor(b, i, j)) {
      assert a[i][j].color == b[i][j].color;
      assert DerivedEdgeColor(a, i, j) == DerivedEdgeColor(b, i, j);
    }
  }

  /** The cubic Bézier of row `i` (top edge for 0, bottom edge for 3) at parameter t. */
  function RowCurve(cp: Grid, i: int, t: real): Point
    requires WellFormed(cp) && 0 <= i < 4
  {
    BezierCurve(cp[i][0], cp[i][1], cp[i][2], cp[i][3], BernsteinCoefficients(t))
  }

  /** The cubic Bézier of column `j` (left edge for 0, right edge for 3) at parameter t. */
  function ColumnCurve(cp: Grid, j: int, t: real): Point
    requires WellFormed(cp) && 0 <= j < 4
  {
    BezierCurve(cp[0][j], cp[1][j], cp[2][j], cp[3][j], BernsteinCoefficients(t))
  }

  /**
   * On each side of the parameter square the Coons combination reduces to that
   * side's curve, once the other two curves meet it at the corners.
   */
  lemma CoonsBlendOnSides(top: real, bottom: real, left: real, right: real,
                          c00: real, c10: real, c11: real, c01: real, u: real, v: real)
    ensures v == 0.0 && left == c00 && right == c10 ==>
      CoonsBlend(top, bottom, left, right, Bilinear(c00, c10, c11, c01, u, v), u, v) == top
    ensures v == 1.0 && left == c01 && right == c11 ==>
      CoonsBlend(top, bottom, left, right, Bilinear(c00, c10, c11, c01, u, v), u, v) == bottom
    ensures u == 0.0 && top == c00 && bottom == c01 ==>
      CoonsBlend(top, bottom, left, right, Bilinear(c00, c10, c11, c01, u, v), u, v) == left
    ensures u == 1.0 && top == c10 && bottom == c11 ==>
      CoonsBlend(top, bottom, left, right, Bilinear(c00, c10, c11, c01, u, v), u, v) == right
  {
  }

  /** Basis values of a cubic at its start and at its end. */
  const StartBasis: seq<real> := [1.0, 0.0, 0.0, 0.0]
  const EndBasis: seq<real> := [0.0, 0.0, 0.0, 1.0]

  lemma BezierCurveEnds(p0: Point, p1: Point, p2: Point, p3: Point)
    ensures BezierCurve(p0, p1, p2, p3, StartBasis) == NewPoint(p0.x, p0.y)
    ensures BezierCurve(p0, p1, p2, p3, EndBasis) == NewPoint(p3.x, p3.y)
  {
  }

  lemma CoonsSurfaceTop(cp: Grid, bu: seq<real>, u: real)
    requires WellFormed(cp) && |bu| == 4
    ensures CoonsSurface(cp, bu, StartBasis, u, 0.0) == BezierCurve(cp[0][0], cp[0][1], cp[0][2], cp[0][3], bu)
  {
    var top := BezierCurve(cp[0][0], cp[0][1], cp[0][2], cp[0][3], bu);
    var bottom := BezierCurve(cp[3][0], cp[3][1], cp[3][2], cp[3][3], bu);
    BezierCurveEnds(cp[0][0], cp[1][0], cp[2][0], cp[3][0]);
    BezierCurveEnds(cp[0][3], cp[1][3], cp[2][3], cp[3][3]);
    CoonsBlendOnSides(top.x, bottom.x, cp[0][0].x, cp[0][3].x, cp[0][0].x, cp[0][3].x, cp[3][3].x, cp[3][0].x, u, 0.0);
    CoonsBlendOnSides(top.y, bottom.y, cp[0][0].y, cp[0][3].y, cp[0][0].y, cp[0][3].y, cp[3][3].y, cp[3][0].y, u, 0.0);
  }

  lemma CoonsSurfaceBottom(cp: Grid, bu: seq<real>, u: real)
    requires WellFormed(cp) && |bu| == 4
    ensures CoonsSurface(cp, bu, EndBasis, u, 1.0) == BezierCurve(cp[3][0], cp[3][1], cp[3][2], cp[3][3], bu)
  {
    var top := BezierCurve(cp[0][0], cp[0][1], cp[0][2], cp[0][3], bu);
    var bottom := BezierCurve(cp[3][0], cp[3][1], cp[3][2], cp[3][3], bu);
    BezierCurveEnds(cp[0][0], cp[1][0], cp[2][0], cp[3][0]);
    BezierCurveEnds(cp[0][3], cp[1][3], cp[2][3], cp[3][3]);
    CoonsBlendOnSides(top.x, bottom.x, cp[3][0].x, cp[3][3].x, cp[0][0].x, cp[0][3].x, cp[3][3].x, cp[3][0].x, u, 1.0);
    CoonsBlendOnSides(top.y, bottom.y, cp[3][0].y, cp[3][3].y, cp[0][0].y, cp[0][3].y, cp[3][3].y, cp[3][0].y, u, 1.0);
  }

  lemma CoonsSurfaceLeft(cp: Grid, bv: seq<real>, v: real)
    requires WellFormed(cp) && |bv| == 4
    ensures CoonsSurface(cp, StartBasis, bv, 0.0, v) == BezierCurve(cp[0][0], cp[1][0], cp[2][0], cp[3][0], bv)
  {
    var left := BezierCurve(cp[0][0], cp[1][0], cp[2][0], cp[3][0], bv);
    var right := BezierCurve(cp[0][3], cp[1][3], cp[2][3], cp[3][3], bv);
    BezierCurveEnds(cp[0][0], cp[0][1], cp[0][2], cp[0][3]);
    BezierCurveEnds(cp[3][0], cp[3][1], cp[3][2], cp[3][3]);
    CoonsBlendOnSides(cp[0][0].x, cp[3][0].x, left.x, right.x, cp[0][0].x, cp[0][3].x, cp[3][3].x, cp[3][0].x, 0.0, v);
    CoonsBlendOnSides(cp[0][0].y, cp[3][0].y, left.y, right.y, cp[0][0].y, cp[0][3].y, cp[3][3].y, cp[3][0].y, 0.0, v);
  }

  lemma CoonsSurfaceRight(cp: Grid, bv: seq<real>, v: real)
    requires WellFormed(cp) && |bv| == 4
    ensures CoonsSurface(cp, EndBasis, bv, 1.0, v) == BezierCurve(cp[0][3], cp[1][3], cp[2][3], cp[3][3], bv)
  {
    var left := BezierCurve(cp[0][0], cp[1][0], cp[2][0], cp[3][0], bv);
    var right := BezierCurve(cp[0][3], cp[1][3], cp[2][3], cp[3][3], bv);
    BezierCurveEnds(cp[0][0], cp[0][1], cp[0][2], cp[0][3]);
    BezierCurveEnds(cp[3][0], cp[3][1], cp[3][2], cp[3][3]);
    CoonsBlendOnSides(cp[0][3].x, cp[3][3].x, left.x, right.x, cp[0][0].x, cp[0][3].x, cp[3][3].x, cp[3][0].x, 1.0, v);
    CoonsBlendOnSides(cp[0][3].y, cp[3][3].y, left.y, right.y, cp[0][0].y, cp[0][3].y, cp[3][3].y, cp[3][0].y, 1.0, v);
  }

  /**
   * On each side of the parameter square the surface is that side's cubic
   * boundary curve: v = 0 gives row 0, v = 1 row 3, u = 0 column 0 and u = 1
   * column 3. Parameters beyond the square are clamped onto its sides.
   */
  lemma EvaluatePointOnBoundary(p: Patch, t: real, s: real)
    requires WellFormed(p.cp)
    ensures s <= 0.0 ==> EvaluatePoint(p, t, s) == RowCurve(p.cp, 0, Clamp01(t))
    ensures s >= 1.0 ==> EvaluatePoint(p, t, s) == RowCurve(p.cp, 3, Clamp01(t))
    ensures s <= 0.0 ==> EvaluatePoint(p, s, t) == ColumnCurve(p.cp, 0, Clamp01(t))
    ensures s >= 1.0 ==> EvaluatePoint(p, s, t) == ColumnCurve(p.cp, 3, Clamp01(t))
  {
    if s <= 0.0 {
      EvaluatePointTopEdge(p, t, s);
      EvaluatePointLeftEdge(p, t, s);
    }
    if s >= 1.0 {
      EvaluatePointBottomEdge(p, t, s);
      EvaluatePointRightEdge(p, t, s);
    }
  }

  /** `EvaluatePoint` is the Coons surface at the clamped parameters. */
  lemma EvaluatePointUnfold(p: Patch, u: real, v: real)
    requires WellFormed(p.cp)
    ensures var cu, cv := Clamp01(u), Clamp01(v);
      EvaluatePoint(p, u, v) == CoonsSurface(p.cp, BernsteinCoefficients(cu), BernsteinCoefficients(cv), cu, cv)
  {
  }

  lemma EvaluatePointTopEdge(p: Patch, u: real, v: real)
    requires WellFormed(p.cp) && v <= 0.0
    ensures EvaluatePoint(p, u, v) == RowCurve(p.cp, 0, Clamp01(u))
  {
    var cu, cv := Clamp01(u), Clamp01(v);
    var bu, bv := BernsteinCoefficients(cu), BernsteinCoefficients(cv);
    EvaluatePointUnfold(p, u, v);
    BernsteinClampedEndpoints(v);
    assert cv == 0.0 && bv == StartBasis;
    CoonsSurfaceTop(p.cp, bu, cu);
    calc {
      EvaluatePoint(p, u, v);
      CoonsSurface(p.cp, bu, bv, cu, cv);
      CoonsSurface(p.cp, bu, StartBasis, cu, 0.0);
      RowCurve(p.cp, 0, cu);
    }
  }

  lemma EvaluatePointBottomEdge(p: Patch, u: real, v: real)
    requires WellFormed(p.cp) && v >= 1.0
    ensures EvaluatePoint(p, u, v) == RowCurve(p.cp, 3, Clamp01(u))
  {
    var cu, cv := Clamp01(u), Clamp01(v);
    var bu, bv := BernsteinCoefficients(cu), BernsteinCoefficients(cv);
    EvaluatePointUnfold(p, u, v);
    BernsteinClampedEndpoints(v);
    assert cv == 1.0 && bv == EndBasis;
    CoonsSurfaceBottom(p.cp, bu, cu);
    calc {
      EvaluatePoint(p, u, v);
      CoonsSurface(p.cp, bu, bv, cu, cv);
      CoonsSurface(p.cp, bu, EndBasis, cu, 1.0);
      RowCurve(p.cp, 3, cu);
    }
  }

  lemma EvaluatePointLeftEdge(p: Patch, v: real, u: real)
    requires WellFormed(p.cp) && u <= 0.0
    ensures EvaluatePoint(p, u, v) == ColumnCurve(p.cp, 0, Clamp01(v))
  {
    var cu, cv := Clamp01(u), Clamp01(v);
    var bu, bv := BernsteinCoefficients(cu), BernsteinCoefficients(cv);
    EvaluatePointUnfold(p, u, v);
    BernsteinClampedEndpoints(u);
    assert cu == 0.0 && bu == StartBasis;
    CoonsSurfaceLeft(p.cp, bv, cv);
    calc {
      EvaluatePoint(p, u, v);
      CoonsSurface(p.cp, bu, bv, cu, cv);
      CoonsSurface(p.cp, StartBasis, bv, 0.0, cv);
      ColumnCurve(p.cp, 0, cv);
    }
  }

  lemma EvaluatePointRightEdge(p: Patch, v: real, u: real)
    requires WellFormed(p.cp) && u >= 1.0
    ensures EvaluatePoint(p, u, v) == ColumnCurve(p.cp, 3, Clamp01(v))
  {
    var cu, cv := Clamp01(u), Clamp01(v);
    var bu, bv := BernsteinCoefficients(cu), BernsteinCoefficients(cv);
    EvaluatePointUnfold(p, u, v);
    BernsteinClampedEndpoints(u);
    assert cu == 1.0 && bu == EndBasis;
    CoonsSurfaceRight(p.cp, bv, cv);
    calc {
      EvaluatePoint(p, u, v);
      CoonsSurface(p.cp, bu, bv, cu, cv);
      CoonsSurface(p.cp, EndBasis, bv, 1.0, cv);
      ColumnCurve(p.cp, 3, cv);
    }
  }

  lemma EvaluatePointCorners(p: Patch)
    requires WellFormed(p.cp)
    ensures EvaluatePoint(p, 0.0, 0.0) == NewPoint(p.cp[0][0].x, p.cp[0][0].y)
    ensures EvaluatePoint(p, 1.0, 0.0) == NewPoint(p.cp[0][3].x, p.cp[0][3].y)
    ensures EvaluatePoint(p, 0.0, 1.0) == NewPoint(p.cp[3][0].x, p.cp[3][0].y)
    ensures EvaluatePoint(p, 1.0, 1.0) == NewPoint(p.cp[3][3].x, p.cp[3][3].y)
  {
    var cp := p.cp;
    BernsteinEndpoints();
    EvaluatePointOnBoundary(p, 0.0, 0.0);
    EvaluatePointOnBoundary(p, 1.0, 0.0);
    EvaluatePointOnBoundary(p, 0.0, 1.0);
    EvaluatePointOnBoundary(p, 1.0, 1.0);
    BezierCurveEnds(cp[0][0], cp[0][1], cp[0][2], cp[0][3]);
    BezierCurveEnds(cp[3][0], cp[3][1], cp[3][2], cp[3][3]);
  }

  /**
   * The whole surface against an independent formula: at the clamped
   * parameters, each coordinate is the Coons combination (`CoonsBlend`: top
   * and bottom weighted by 1 − v and v, left and right by 1 − u and u, minus
   * the corner term) of the four boundary cubics computed by de Casteljau and
   * the bilinear blend of the corners.
   */
  lemma EvaluatePointIsCoons(p: Patch, u: real, v: real)
    requires WellFormed(p.cp)
    ensures EvaluatePoint(p, u, v).x == CoonsBlend(
        DeCasteljau(p.cp[0][0].x, p.cp[0][1].x, p.cp[0][2].x, p.cp[0][3].x, Clamp01(u)),
        DeCasteljau(p.cp[3][0].x, p.cp[3][1].x, p.cp[3][2].x, p.cp[3][3].x, Clamp01(u)),
        DeCasteljau(p.cp[0][0].x, p.cp[1][0].x, p.cp[2][0].x, p.cp[3][0].x, Clamp01(v)),
        DeCasteljau(p.cp[0][3].x, p.cp[1][3].x, p.cp[2][3].x, p.cp[3][3].x, Clamp01(v)),
        Bilinear(p.cp[0][0].x, p.cp[0][3].x, p.cp[3][3].x, p.cp[3][0].x, Clamp01(u), Clamp01(v)), Clamp01(u), Clamp01(v))
    ensures EvaluatePoint(p, u, v).y == CoonsBlend(
        DeCasteljau(p.cp[0][0].y, p.cp[0][1].y, p.cp[0][2].y, p.cp[0][3].y, Clamp01(u)),
        DeCasteljau(p.cp[3][0].y, p.cp[3][1].y, p.cp[3][2].y, p.cp[3][3].y, Clamp01(u)),
        DeCasteljau(p.cp[0][0].y, p.cp[1][0].y, p.cp[2][0].y, p.cp[3][0].y, Clamp01(v)),
        DeCasteljau(p.cp[0][3].y, p.cp[1][3].y, p.cp[2][3].y, p.cp[3][3].y, Clamp01(v)),
        Bilinear(p.cp[0][0].y, p.cp[0][3].y, p.cp[3][3].y, p.cp[3][0].y, Clamp01(u), Clamp01(v)), Clamp01(u), Clamp01(v))
  {
    EvaluatePointUnfold(p, u, v);
    CoonsSurfaceX(p.cp, Clamp01(u), Clamp01(v));
    CoonsSurfaceY(p.cp, Clamp01(u), Clamp01(v));
  }

  /** A cubic Bézier point under the Bernstein basis is de Casteljau's construction in each coordinate. */
  lemma BezierCurveIsDeCasteljau(p0: Point, p1: Point, p2: Point, p3: Point, t: real)
    ensures BezierCurve(p0, p1, p2, p3, BernsteinCoefficients(t)).x == DeCasteljau(p0.x, p1.x, p2.x, p3.x, t)
    ensures BezierCurve(p0, p1, p2, p3, BernsteinCoefficients(t)).y == DeCasteljau(p0.y, p1.y, p2.y, p3.y, t)
  {
    BernsteinIsDeCasteljau(p0.x, p1.x, p2.x, p3.x, t);
    BernsteinIsDeCasteljau(p0.y, p1.y, p2.y, p3.y, t);
  }

  /** `CoonsSurface` as the Coons combination of its four boundary curves and its corner blend. */
  lemma CoonsSurfaceParts(cp: Grid, bu: seq<real>, bv: seq<real>, u: real, v: real)
    requires WellFormed(cp) && |bu| == 4 && |bv| == 4
    ensures var top, bottom := BezierCurve(cp[0][0], cp[0][1], cp[0][2], cp[0][3], bu), BezierCurve(cp[3][0], cp[3][1], cp[3][2], cp[3][3], bu);
      var left, right := BezierCurve(cp[0][0], cp[1][0], cp[2][0], cp[3][0], bv), BezierCurve(cp[0][3], cp[1][3], cp[2][3], cp[3][3], bv);
      var bilinear := BilinearInterpolate(cp[0][0], cp[0][3], cp[3][3], cp[3][0], u, v);
      && CoonsSurface(cp, bu, bv, u, v).x == CoonsBlend(top.x, bottom.x, left.x, right.x, bilinear.x, u, v)
      && CoonsSurface(cp, bu, bv, u, v).y == CoonsBlend(top.y, bottom.y, left.y, right.y, bilinear.y, u, v)
  {
  }

  lemma CoonsSurfaceX(cp: Grid, u: real, v: real)
    requires WellFormed(cp)
    ensures CoonsSurface(cp, BernsteinCoefficients(u), BernsteinCoefficients(v), u, v).x == CoonsBlend(
        DeCasteljau(cp[0][0].x, cp[0][1].x, cp[0][2].x, cp[0][3].x, u),
        DeCasteljau(cp[3][0].x, cp[3][1].x, cp[3][2].x, cp[3][3].x, u),
        DeCasteljau(cp[0][0].x, cp[1][0].x, cp[2][0].x, cp[3][0].x, v),
        DeCasteljau(cp[0][3].x, cp[1][3].x, cp[2][3].x, cp[3][3].x, v),
        Bilinear(cp[0][0].x, cp[0][3].x, cp[3][3].x, cp[3][0].x, u, v), u, v)
  {
    var bu, bv := BernsteinCoefficients(u), BernsteinCoefficients(v);
    CoonsSurfaceParts(cp, bu, bv, u, v);
    BezierCurveIsDeCasteljau(cp[0][0], cp[0][1], cp[0][2], cp[0][3], u);
    BezierCurveIsDeCasteljau(cp[3][0], cp[3][1], cp[3][2], cp[3][3], u);
    BezierCurveIsDeCasteljau(cp[0][0], cp[1][0], cp[2][0], cp[3][0], v);
    BezierCurveIsDeCasteljau(cp[0][3], cp[1][3], cp[2][3], cp[3][3], v);
  }

  lemma CoonsSurfaceY(cp: Grid, u: real, v: real)
    requires WellFormed(cp)
    ensures CoonsSurface(cp, BernsteinCoefficients(u), BernsteinCoefficients(v), u, v).y == CoonsBlend(
        DeCasteljau(cp[0][0].y, cp[0][1].y, cp[0][2].y, cp[0][3].y, u),
        DeCasteljau(cp[3][0].y, cp[3][1].y, cp[3][2].y, cp[3][3].y, u),
        DeCasteljau(cp[0][0].y, cp[1][0].y, cp[2][0].y, cp[3][0].y, v),
        DeCasteljau(cp[0][3].y, cp[1][3].y, cp[2][3].y, cp[3][3].y, v),
        Bilinear(cp[0][0].y, cp[0][3].y, cp[3][3].y, cp[3][0].y, u, v), u, v)
  {
    var bu, bv := BernsteinCoefficients(u), BernsteinCoefficients(v);
    CoonsSurfaceParts(cp, bu, bv, u, v);
    BezierCurveIsDeCasteljau(cp[0][0], cp[0][1], cp[0][2], cp[0][3], u);
    BezierCurveIsDeCasteljau(cp[3][0], cp[3][1], cp[3][2], cp[3][3], u);
    BezierCurveIsDeCasteljau(cp[0][0], cp[1][0], cp[2][0], cp[3][0], v);
    BezierCurveIsDeCasteljau(cp[0][3], cp[1][3], cp[2][3], cp[3][3], v);
  }

  /** Out-of-range parameters evaluate like their clamped values. */
  lemma EvaluatePointClamps(p: Patch, u: real, v: real)
    requires WellFormed(p.cp)
    ensures EvaluatePoint(p, u, v) == EvaluatePoint(p, Clamp01(u), Clamp01(v))
  {
  }

  lemma CoonsSurfaceReadsBoundary(a: Grid, b: Grid, bu: seq<real>, bv: seq<real>, u: real, v: real)
    requires WellFormed(a) && WellFormed(b) && |bu| == 4 && |bv| == 4
    requires SameBoundaryPositions(a, b)
    ensures CoonsSurface(a, bu, bv, u, v) == CoonsSurface(b, bu, bv, u, v)
  {
    assert forall k :: 0 <= k < 4 ==> a[0][k].x == b[0][k].x && a[0][k].y == b[0][k].y;
    assert forall k :: 0 <= k < 4 ==> a[3][k].x == b[3][k].x && a[3][k].y == b[3][k].y;
    assert forall k :: 0 <= k < 4 ==> a[k][0].x == b[k][0].x && a[k][0].y == b[k][0].y;
    assert forall k :: 0 <= k < 4 ==> a[k][3].x == b[k][3].x && a[k][3].y == b[k][3].y;
  }

  /** The surface never reads the interior control points (nor any colour). */
  lemma EvaluatePointIgnoresInterior(p: Patch, q: Patch, u: real, v: real)
    requires WellFormed(p.cp) && WellFormed(q.cp)
    requires SameBoundaryPositions(p.cp, q.cp)
    ensures EvaluatePoint(p, u, v) == EvaluatePoint(q, u, v)
  {
    var cu, cv := Clamp01(u), Clamp01(v);
    CoonsSurfaceReadsBoundary(p.cp, q.cp, BernsteinCoefficients(cu), BernsteinCoefficients(cv), cu, cv);
  }

  /** Interpolating along u and then along v is the bilinear blend with the weights of `bilinearInterpolate`. */
  lemma NestedMixIsBilinear(a00: real, a10: real, a11: real, a01: real, u: real, v: real)
    ensures Mix(Mix(a00, a10, u), Mix(a01, a11, u), v) == Bilinear(a00, a10, a11, a01, u, v)
  {
    var s, w := 1.0 - u, 1.0 - v;
    calc {
      Mix(Mix(a00, a10, u), Mix(a01, a11, u), v);
      (a00 * s + a10 * u) * w + (a01 * s + a11 * u) * v;
      { BilinearExpand(a00, a10, a11, a01, s, u, w, v); }
      s * w * a00 + u * w * a10 + u * v * a11 + s * v * a01;
    }
  }

  lemma BilinearExpand(a00: real, a10: real, a11: real, a01: real, s: real, u: real, w: real, v: real)
    ensures (a00 * s + a10 * u) * w + (a01 * s + a11 * u) * v == s * w * a00 + u * w * a10 + u * v * a11 + s * v * a01
  {
  }

  /** The parameter corners of the colour field are the corner colours, exactly. */
  lemma EvaluateColorCorners(p: Patch)
    requires WellFormed(p.cp) && CornersColored(p.cp)
    ensures EvaluateColor(p, 0.0, 0.0) == p.cp[0][0].color.value
    ensures EvaluateColor(p, 1.0, 0.0) == p.cp[0][3].color.value
    ensures EvaluateColor(p, 0.0, 1.0) == p.cp[3][0].color.value
    ensures EvaluateColor(p, 1.0, 1.0) == p.cp[3][3].color.value
  {
  }

  /** Only the corner colours matter: edge-point colours and positions are never read. */
  lemma EvaluateColorIgnoresEdgeColors(p: Patch, q: Patch, u: real, v: real)
    requires WellFormed(p.cp) && CornersColored(p.cp) && WellFormed(q.cp)
    requires p.cp[0][0].color == q.cp[0][0].color && p.cp[0][3].color == q.cp[0][3].color
    requires p.cp[3][3].color == q.cp[3][3].color && p.cp[3][0].color == q.cp[3][0].color
    ensures CornersColored(q.cp) && EvaluateColor(p, u, v) == EvaluateColor(q, u, v)
  {
  }

  /** The colour parameters are not clamped: u = −1 extrapolates red past 255 on the default patch. */
  lemma EvaluateColorNotClamped(x: real, y: real, width: real, height: real)
    ensures EvaluateColor(NewPatch(x, y, width, height), -1.0, 0.0).r == 510.0
    ensures EvaluateColor(NewPatch(x, y, width, height), -1.0, 0.0).g == -255.0
  {
    var p := NewPatch(x, y, width, height);
    NewPatchCorners(x, y, width, height);
    assert EvaluateColor(p, -1.0, 0.0) == InterpolateEdgeColor(Red, Green, -1.0);
  }

  /** Where the initial layout puts the twelve boundary points and which colours the corners get. */
  lemma InitialGridLayout(x: real, y: real, width: real, height: real)
    ensures var g := InitialGrid(x, y, width, height);
      && g[0][0].x == x && g[0][0].y == y && g[0][0].color == Some(Red)
      && g[0][3].x == x + width && g[0][3].y == y && g[0][3].color == Some(Green)
      && g[3][3].x == x + width && g[3][3].y == y + height && g[3][3].color == Some(Blue)
      && g[3][0].x == x && g[3][0].y == y + height && g[3][0].color == Some(Yellow)
    ensures var g := InitialGrid(x, y, width, height);
      && g[0][1].x == x + width * 0.33 && g[0][2].x == x + width * 0.67 && g[0][1].y == y && g[0][2].y == y
      && g[3][1].x == x + width * 0.33 && g[3][2].x == x + width * 0.67 && g[3][1].y == y + height && g[3][2].y == y + height
      && g[1][0].y == y + height * 0.33 && g[2][0].y == y + height * 0.67 && g[1][0].x == x && g[2][0].x == x
      && g[1][3].y == y + height * 0.33 && g[2][3].y == y + height * 0.67 && g[1][3].x == x + width && g[2][3].x == x + width
  {
  }

  /** Where the constructor puts the four corners and which colours they get. */
  lemma NewPatchCorners(x: real, y: real, width: real, height: real)
    ensures var cp := NewPatch(x, y, width, height).cp;
      && cp[0][0].x == x && cp[0][0].y == y && cp[0][0].color == Some(Red)
      && cp[0][3].x == x + width && cp[0][3].y == y && cp[0][3].color == Some(Green)
      && cp[3][3].x == x + width && cp[3][3].y == y + height && cp[3][3].color == Some(Blue)
      && cp[3][0].x == x && cp[3][0].y == y + height && cp[3][0].color == Some(Yellow)
  {
    InitialGridLayout(x, y, width, height);
  }

  /** Grids are equal when they agree slot by slot. */
  lemma GridExtensionality(a: Grid, b: Grid)
    requires WellFormed(a) && WellFormed(b)
    requires forall i, j :: InGrid(i, j) ==> a[i][j] == b[i][j]
    ensures a == b
  {
    forall i | 0 <= i < 4 ensures a[i] == b[i] {
      assert forall j :: 0 <= j < 4 ==> a[i][j] == b[i][j];
    }
  }

  /** A grid with a derived interior is determined by its boundary. */
  lemma DerivedGridDeterminedByBoundary(a: Grid, b: Grid)
    requires WellFormed(a) && WellFormed(b) && InteriorDerived(a) && InteriorDerived(b)
    requires forall i, j :: InGrid(i, j) && !IsInterior(i, j) ==> a[i][j] == b[i][j]
    ensures a == b
  {
    CoonsPointReadsBoundary(a, b, 1, 1);
    CoonsPointReadsBoundary(a, b, 1, 2);
    CoonsPointReadsBoundary(a, b, 2, 1);
    CoonsPointReadsBoundary(a, b, 2, 2);
    SameBoundarySameInterior(a, b);
  }

  /** Grids that agree off the interior and on the four interior slots are equal. */
  lemma SameBoundarySameInterior(a: Grid, b: Grid)
    requires WellFormed(a) && WellFormed(b)
    requires forall i, j :: InGrid(i, j) && !IsInterior(i, j) ==> a[i][j] == b[i][j]
    requires a[1][1] == b[1][1] && a[1][2] == b[1][2] && a[2][1] == b[2][1] && a[2][2] == b[2][2]
    ensures a == b
  {
    GridExtensionality(a, b);
  }

  /** `calculateInteriorPoints` changes nothing once the interior is derived, so running it twice is running it once. */
  lemma CalculateInteriorPointsIdempotent(cp: Grid)
    requires WellFormed(cp)
    ensures InteriorDerived(cp) ==> CalculateInteriorPoints(cp) == cp
    ensures CalculateInteriorPoints(CalculateInteriorPoints(cp)) == CalculateInteriorPoints(cp)
  {
    var r := CalculateInteriorPoints(cp);
    CalculateInteriorPointsDerives(cp);
    CalculateInteriorPointsDerives(r);
    DerivedGridDeterminedByBoundary(CalculateInteriorPoints(r), r);
    if InteriorDerived(cp) {
      DerivedGridDeterminedByBoundary(r, cp);
    }
  }

  /**
   * On a boundary slot the Coons formula gives back that slot's own position:
   * the interior formula interpolates the boundary it is built from.
   */
  lemma CoonsReproducesBoundary(cp: Grid, i: int, j: int)
    requires WellFormed(cp) && InGrid(i, j) && IsBoundary(i, j)
    ensures CoonsPoint(cp, i, j).x == cp[i][j].x && CoonsPoint(cp, i, j).y == cp[i][j].y
  {
    var u := j as real / 3.0;
    var v := i as real / 3.0;
    var a, b, c, d := cp[0][0], cp[0][3], cp[3][3], cp[3][0];
    CoonsLinesOnSides(cp[i][0].x, cp[i][3].x, cp[0][j].x, cp[3][j].x, a.x, b.x, c.x, d.x, u, v);
    CoonsLinesOnSides(cp[i][0].y, cp[i][3].y, cp[0][j].y, cp[3][j].y, a.y, b.y, c.y, d.y, u, v);
  }

  /** The scalar Coons formula of `calculateInteriorPoints` on the four sides of the unit square. */
  lemma CoonsLinesOnSides(l: real, r: real, t: real, b: real, c00: real, c10: real, c11: real, c01: real, u: real, v: real)
    ensures v == 0.0 && l == c00 && r == c10 ==> Mix(l, r, u) + Mix(t, b, v) - Bilinear(c00, c10, c11, c01, u, v) == t
    ensures v == 1.0 && l == c01 && r == c11 ==> Mix(l, r, u) + Mix(t, b, v) - Bilinear(c00, c10, c11, c01, u, v) == b
    ensures u == 0.0 && t == c00 && b == c01 ==> Mix(l, r, u) + Mix(t, b, v) - Bilinear(c00, c10, c11, c01, u, v) == l
    ensures u == 1.0 && t == c10 && b == c11 ==> Mix(l, r, u) + Mix(t, b, v) - Bilinear(c00, c10, c11, c01, u, v) == r
  {
  }

  /** Moving a boundary point keeps every invariant: shape, corner and edge colours, derived interior, selection. */
  lemma MoveControlPointKeepsConsistent(p: Patch, row: int, col: int, x: real, y: real)
    requires Consistent(p)
    ensures InGrid(row, col) ==> MoveControlPoint(p, row, col, x, y).Some?
    ensures MoveControlPoint(p, row, col, x, y).Some? ==> Consistent(MoveControlPoint(p, row, col, x, y).value)
  {
    if IsBoundary(row, col) && InGrid(row, col) {
      MoveGridKeepsColors(p.cp, row, col, x, y);
    }
  }

  /** Moving a boundary point changes no colour, so the corner and edge colours stay derived. */
  lemma MoveGridKeepsColors(cp: Grid, row: int, col: int, x: real, y: real)
    requires WellFormed(cp) && CornersColored(cp) && EdgeColorsDerived(cp) && InGrid(row, col) && IsBoundary(row, col)
    ensures CornersColored(MoveGrid(cp, row, col, x, y)) && EdgeColorsDerived(MoveGrid(cp, row, col, x, y))
  {
    EdgeColorsDependOnBoundary(cp, MoveGrid(cp, row, col, x, y));
  }

  /** A derived grid that has the moved point and the other boundary slots of `cp` is the result of the move. */
  lemma MoveGridCharacterized(cp: Grid, row: int, col: int, x: real, y: real, g: Grid)
    requires WellFormed(cp) && InGrid(row, col) && IsBoundary(row, col)
    requires WellFormed(g) && InteriorDerived(g) && g[row][col] == cp[row][col].(x := x, y := y)
    requires forall i, j :: InGrid(i, j) && IsBoundary(i, j) && (i, j) != (row, col) ==> g[i][j] == cp[i][j]
    ensures MoveGrid(cp, row, col, x, y) == g
  {
    SameEditSameGrid(MoveGrid(cp, row, col, x, y), g, cp, row, col);
  }

  /** Two derived grids that both differ from `cp` only at boundary slot (row, col), and agree there, are equal. */
  lemma SameEditSameGrid(a: Grid, b: Grid, cp: Grid, row: int, col: int)
    requires WellFormed(a) && WellFormed(b) && WellFormed(cp) && InGrid(row, col) && IsBoundary(row, col)
    requires InteriorDerived(a) && InteriorDerived(b) && a[row][col] == b[row][col]
    requires forall i, j :: InGrid(i, j) && IsBoundary(i, j) && (i, j) != (row, col) ==> a[i][j] == cp[i][j]
    requires forall i, j :: InGrid(i, j) && IsBoundary(i, j) && (i, j) != (row, col) ==> b[i][j] == cp[i][j]
    ensures a == b
  {
    DerivedGridDeterminedByBoundary(a, b);
  }

  /** Moving a boundary point away and back to where it was restores the patch exactly, interior included. */
  lemma MoveBackRestores(p: Patch, row: int, col: int, x: real, y: real)
    requires WellFormed(p.cp) && InteriorDerived(p.cp) && InGrid(row, col) && IsBoundary(row, col)
    ensures MoveControlPoint(p, row, col, x, y).Some?
    ensures MoveControlPoint(MoveControlPoint(p, row, col, x, y).value, row, col, p.cp[row][col].x, p.cp[row][col].y) == Some(p)
  {
    var q := MoveGrid(p.cp, row, col, x, y);
    MoveGridCharacterized(q, row, col, p.cp[row][col].x, p.cp[row][col].y, p.cp);
  }

  /** Moving a point to where it already is changes nothing once the interior is derived. */
  lemma MoveInPlace(p: Patch, row: int, col: int)
    requires WellFormed(p.cp) && InteriorDerived(p.cp) && InGrid(row, col) && IsBoundary(row, col)
    ensures MoveControlPoint(p, row, col, p.cp[row][col].x, p.cp[row][col].y) == Some(p)
  {
    MoveGridCharacterized(p.cp, row, col, p.cp[row][col].x, p.cp[row][col].y, p.cp);
  }

  /** Moving the same point to the same place twice is moving it once. */
  lemma MoveControlPointIdempotent(p: Patch, row: int, col: int, x: real, y: real)
    requires WellFormed(p.cp) && InGrid(row, col) && IsBoundary(row, col)
    ensures MoveControlPoint(p, row, col, x, y).Some?
    ensures MoveControlPoint(MoveControlPoint(p, row, col, x, y).value, row, col, x, y) == MoveControlPoint(p, row, col, x, y)
  {
    var q := MoveControlPoint(p, row, col, x, y).value;
    MoveInPlace(q, row, col);
  }

  /** After a move, reading the slot back gives the moved point. */
  lemma MoveThenGet(p: Patch, row: int, col: int, x: real, y: real)
    requires WellFormed(p.cp) && InGrid(row, col) && IsBoundary(row, col)
    ensures MoveControlPoint(p, row, col, x, y).Some?
    ensures GetControlPoint(MoveControlPoint(p, row, col, x, y).value, row, col) == Some(p.cp[row][col].(x := x, y := y))
  {
  }

  /** Every handler keeps all invariants of the patch. */
  lemma HandlersKeepConsistent(p: Patch, x: real, y: real)
    requires Consistent(p)
    ensures Consistent(HandleMouseMove(p, x, y))
    ensures Consistent(HandleMouseDown(p, x, y))
    ensures Consistent(HandleMouseUp(p))
  {
    if p.dragging && p.selected.Some? {
      MoveControlPointKeepsConsistent(p, p.selected.value.row, p.selected.value.col, x, y);
    }
  }

  /** Releasing the mouse twice is releasing it once. */
  lemma HandleMouseUpIdempotent(p: Patch)
    ensures HandleMouseUp(HandleMouseUp(p)) == HandleMouseUp(p)
  {
  }

  /**
   * Querying exactly at a boundary point finds that point at distance zero,
   * provided every boundary slot before it in row-major order lies at a
   * positive distance (no earlier point sits at the very same place).
   */
  lemma NearestAtBoundaryPoint(p: Patch, i: int, j: int)
    requires WellFormed(p.cp) && InGrid(i, j) && IsBoundary(i, j)
    requires forall i', j' :: InGrid(i', j') && IsBoundary(i', j') && RowMajor(i', j') < RowMajor(i, j) ==>
      Dist2(p.cp[i'][j'].x, p.cp[i'][j'].y, p.cp[i][j].x, p.cp[i][j].y) > 0.0
    ensures FindNearestControlPoint(p, p.cp[i][j].x, p.cp[i][j].y) == NearestSlot(i, j, 0.0)
  {
    var x, y := p.cp[i][j].x, p.cp[i][j].y;
    var n := FindNearestControlPoint(p, x, y);
    assert Dist2(x, y, x, y) == 0.0;
    assert n.dist2 == 0.0;
    if RowMajor(n.row, n.col) < RowMajor(i, j) {
      assert false;
    } else if RowMajor(i, j) < RowMajor(n.row, n.col) {
      assert false;
    }
  }

  /**
   * Pressing on the top-left corner selects it and starts a drag; the next
   * mouse move puts that corner under the pointer and leaves hover alone.
   */
  lemma DragTopLeftCorner(p: Patch, x: real, y: real)
    requires Valid(p)
    ensures var q := HandleMouseDown(p, p.cp[0][0].x, p.cp[0][0].y);
      && q.selected == Some(Slot(0, 0)) && q.dragging
      && HandleMouseMove(q, x, y).cp[0][0].x == x && HandleMouseMove(q, x, y).cp[0][0].y == y
      && HandleMouseMove(q, x, y).hovered == p.hovered
  {
    NearestAtBoundaryPoint(p, 0, 0);
  }

  /** Moving an interior slot is ignored, as the demo's call on slot (1, 1) of a fresh patch shows. */
  lemma MoveInteriorIgnored(x: real, y: real, width: real, height: real, px: real, py: real)
    ensures MoveControlPoint(NewPatch(x, y, width, height), 1, 1, px, py) == Some(NewPatch(x, y, width, height))
  {
  }
}
