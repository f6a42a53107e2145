# Gradient-mesh editor core, modelled in Dafny

The repository is a canvas gradient-mesh editor written in TypeScript. This
project models its editing core as immutable Dafny datatypes over exact
`real` arithmetic, with pure functions as the operations:

- `BezierPatch`: a bicubic patch stored as a 4×4 grid of control points.
  - The four corners carry colours.
  - The eight edge points get colours interpolated from the corners.
  - The four interior points are derived from the boundary by the Coons formula.
  - The surface is the Coons blend of the four cubic Bézier boundary curves.
  - The colour field is the bilinear blend of the corner colours.
  - Only boundary points can be moved.
  - A nearest-boundary-point search drives a select/drag state machine for
    mouse down, move and up.
- `KnotPoint`: a corner shared by several patches. Moving or recolouring a
  knot fans the change out to every connected patch slot and nudges the
  neighbouring edge slots by the movement delta.
- `PatchManager`: builds a 2×2 block of patches wired to five shared knots,
  finds the knot nearest to the pointer, and routes mouse events either to
  the selected knot or to every patch.
- `Curve`, `Point` and `CurvableRect`: a cubic segment with a midpoint hit
  test, an interactive point with a three-state hover/select/idle flag and a
  drag flag, and a rectangle drawn as four curves forming a closed loop.

Modules, one per file:

| module | file | what it holds |
|---|---|---|
| `Options` | `options.dfy` | `Option`, standing for `null` |
| `Points` | `points.dfy` | point, interaction state, colour |
| `Arith` | `arith.dfy` | monotonicity facts about products of reals |
| `Nearest` | `nearest.dfy` | squared distance and the first-minimum scan |
| `Bezier` | `bezier.dfy` | linear interpolation, clamping, cubic Bernstein basis |
| `BezierPatches` | `bezier_patch.dfy` | the patch |
| `Curves` | `curve.dfy` | the curve |
| `CurvableRects` | `curvable_rect.dfy` | the rectangle |
| `KnotPoints` | `knot_point.dfy` | the knot |
| `PatchManagers` | `patch_manager.dfy` | the manager |

Modelling choices:

- Mutation becomes a new value. For example, `moveControlPoint` returns the
  patch after the move.
- `src/Point.ts` declares no colour field, but the patch sets `color` on its
  control points at run time. A point therefore carries an optional `Color`
  record of four reals.
- Control-point indices outside the 4×4 grid are handled as the source
  handles them:
  - `moveControlPoint` returns early, changing nothing, unless the row or the
    column is 0 or 3. An index that passes that test but lies outside the grid
    (row 0, column 7, say) makes the source write through a missing row or
    column. That throws a TypeError, which is `None` here.
  - `getControlPoint` throws a TypeError for a missing row and returns
    `undefined` for a missing column. Both are `None` here.
- Distances are squared. `Math.sqrt` is strictly monotone on non-negative
  reals, so the nearest point and the `distance < 10` test are unchanged when
  squared distances are compared with 100 (`Nearest.HitRadiusSquared`).
- The patch methods a knot calls (`updateKnotPosition`,
  `moveAdjacentControlPoint`, `updateKnotColor`) do not exist on the patch
  class. As written, the source therefore throws a TypeError at the first such
  call:
  - `setPosition` throws after storing the new x and y;
  - `setColor` throws after storing the new colour;
  - `createPatchGrid` throws in its colour refresh and never returns.

  A knot with no connections makes no such call. The model does not reproduce
  the throw. Knot operations return, in order, the calls the code attempts, as
  a log of `PatchCall` values; the manager passes that log on. No patch is
  changed by a knot.
- A knot refers to a patch by its index in the manager's patch list (a
  "handle"). The list only grows, so a handle stays valid.

## Model

| member | source | states |
|---|---|---|
| `Points.NewPoint` | src/Point.ts:22-26 | A new point is at (x, y) with the given radius, idle, not dragging, and uncoloured. |
| `Points.NewPointDefaults` | src/Point.ts:23-26 | Without a radius argument the radius is 5; the point is idle (neither hovered nor selected) and not dragging. |
| `Points.Abs` | src/Point.ts:93 | The absolute value is non-negative and is either the argument or its negation. |
| `Points.IsPointInPoint` | src/Point.ts:92-94 | `isPointInPoint`: a hit needs a positive radius. `Points.IsPointInPointSquare` states the hit region exactly. |
| `Points.IsHovered` | src/Point.ts:80-82 | `isHovered` has no contract of its own. Its exclusivity with the other two state tests is stated by `Points.IsSelect` and `Points.IsIdle`. |
| `Points.IsSelect` | src/Point.ts:88-90 | A selected point is not hovered. |
| `Points.IsIdle` | src/Point.ts:84-86 | A point is idle exactly when it is neither hovered nor selected, so each point is in exactly one of the three states. |
| `Points.IsDragging` | src/Point.ts:102-104 | `isDragging` has no contract of its own. `Points.Drag`, `Points.Drop` and `Points.DragDropIndependent` state how the flag it reads changes. |
| `Points.IsPointInPointSquare` | src/Point.ts:92-94 | The point hit test holds exactly when (x, y) lies in the open square of half-side r around the point. |
| `Points.Move` | src/Point.ts:96-99 | `move` sets x and y and keeps radius, interaction state, drag flag and colour. |
| `Points.Drag` | src/Point.ts:106-108 | After `drag` the point is dragging; position, radius, state and colour are kept. |
| `Points.Drop` | src/Point.ts:110-112 | After `drop` the point is not dragging; position, radius, state and colour are kept. |
| `Points.DragDropIndependent` | src/Point.ts:102-112 | Drag and drop never change the interaction state; drop after drag only clears the flag; drag after drop sets it. |
| `Points.SetHover` | src/Point.ts:65-68 | After `hover` exactly `isHovered` holds among the three state predicates; position, radius, drag flag and colour are kept. |
| `Points.SetSelect` | src/Point.ts:70-73 | After `select` exactly `isSelect` holds among the three state predicates; position, radius, drag flag and colour are kept. |
| `Points.SetIdle` | src/Point.ts:75-78 | After `idle` exactly `isIdle` holds among the three state predicates; position, radius, drag flag and colour are kept. |
| `Curves.NewCurve` | src/Curve.ts:22-30 | A new curve holds p1, p2, p3, p4 in that order and is idle. |
| `Curves.IsPointInCurve` | src/Curve.ts:58-73 | The curve hit test is the hit test of a default-radius (5) point placed at the curve's value for t = 0.5. |
| `Curves.GetPoints` | src/Curve.ts:99-101 | Returns as many points as the curve holds. For a four-point curve, writing any of the four returned points back (start, control 1, control 2, end) changes nothing, so the result is the curve's own points in order. |
| `Curves.IsPointInCurveMidpoint` | src/Curve.ts:58-73 | The curve hit test holds iff abs(x − Bx) < 5 and abs(y − By) < 5 with B = (p1 + 3·p2 + 3·p3 + p4) / 8; B is the Bernstein evaluation of the curve at t = 0.5. |
| `Curves.SetHover` | src/Curve.ts:75-77 | After `hover` exactly `isHovered` holds among the three state predicates; the points are kept. |
| `Curves.SetSelect` | src/Curve.ts:79-81 | After `select` exactly `isSelect` holds among the three state predicates; the points are kept. |
| `Curves.SetIdle` | src/Curve.ts:83-85 | After `idle` exactly `isIdle` holds among the three state predicates; the points are kept. |
| `Curves.SetStartPoint` | src/Curve.ts:103-105 | Index 0 becomes the new point; the other three points and the state are kept. |
| `Curves.SetEndPoint` | src/Curve.ts:107-109 | Index 3 becomes the new point; the other three points and the state are kept. |
| `Curves.SetControlPoint1` | src/Curve.ts:111-113 | Index 1 becomes the new point; the other three points and the state are kept. |
| `Curves.SetControlPoint2` | src/Curve.ts:115-117 | Index 2 becomes the new point; the other three points and the state are kept. |
| `Curves.GetControlPoint1` | src/Curve.ts:119-121 | Setting control point 1 to the returned point leaves the curve unchanged. |
| `Curves.GetControlPoint2` | src/Curve.ts:123-125 | Setting control point 2 to the returned point leaves the curve unchanged. |
| `Curves.ControlPointRoundTrip` | src/Curve.ts:111-125 | Reading a control point back after setting it returns the point just set; setting one control point leaves the other one's getter unchanged. |
| `CurvableRects.NewCurvableRect` | src/CurvableRect.ts:6-33 | The rectangle keeps x, y, width and height and has exactly four idle four-point curves. |
| `CurvableRects.ClosedLoop` | src/CurvableRect.ts:7-32 | Each curve ends where the next one (cyclically) starts, and the loop starts at (x, y). |
| `CurvableRects.SidesClockwise` | src/CurvableRect.ts:7-32 | The curves end at the top-right, bottom-right, bottom-left and top-left corners in turn: top, right, bottom, left, clockwise. |
| `CurvableRects.GetCurves` | src/CurvableRect.ts:39-41 | The result is the rectangle's own curves: putting it back as the curves changes nothing. A rectangle as the constructor builds it hands out exactly four four-point curves. |
| `CurvableRects.ControlPointsOnSides` | src/CurvableRect.ts:8-31 | Every curve's two control points lie at 0.3 and 0.7 of the way from its start to its end; top and bottom control points share their curve's y, left and right ones its x. |
| `Bezier.Mix` | src/BezierPatch.ts:139-144 | Linear interpolation returns the first value at t = 0, the second at t = 1, and the common value when both are equal. |
| `Bezier.Clamp01` | src/BezierPatch.ts:160-161 | The clamp lies in [0, 1], is the identity on [0, 1], and sends values below 0 to 0 and above 1 to 1. |
| `Bezier.BernsteinCoefficients` | src/BezierPatch.ts:216-224 | Returns one coefficient per control point, four in all. What they are is stated by the four lemmas below. |
| `Bezier.BernsteinPartitionOfUnity` | src/BezierPatch.ts:216-224 | The four cubic Bernstein coefficients sum to 1 for every t. |
| `Bezier.BernsteinNonNegative` | src/BezierPatch.ts:216-224 | On [0, 1] every coefficient is non-negative. |
| `Bezier.BernsteinEndpoints` | src/BezierPatch.ts:216-224 | The coefficients are [1, 0, 0, 0] at t = 0 and [0, 0, 0, 1] at t = 1. |
| `Bezier.BernsteinIsDeCasteljau` | src/BezierPatch.ts:216-224 | The Bernstein-weighted sum of four control values equals the de Casteljau construction (three rounds of linear interpolation), an independent definition of the cubic. |
| `Nearest.Dist2` | src/BezierPatch.ts:319-322 | The squared distance is non-negative and is 0 between equal points. |
| `Nearest.FirstMin` | src/BezierPatch.ts:311-331 | The scan that replaces its best only on a strictly smaller value returns an index of least value, and every earlier index has a strictly larger value (ties go to the earliest). |
| `Nearest.HitRadiusSquared` | src/BezierPatch.ts:289 | For a non-negative distance d, d < 10 iff d² < 100. |
| `BezierPatches.LinearInterpolate` | src/BezierPatch.ts:139-144 | The interpolated point is p0 at t = 0 and p1 at t = 1. |
| `BezierPatches.BilinearInterpolate` | src/BezierPatch.ts:146-157 | The bilinear point is the top-left, top-right, bottom-right or bottom-left input at (u, v) = (0,0), (1,0), (1,1), (0,1) respectively. |
| `BezierPatches.InterpolateEdgeColor` | src/BezierPatch.ts:243-250 | The colour is the first colour at t = 0, the second at t = 1, and the common colour when both are equal. |
| `BezierPatches.InitializeEdgeColors` | src/BezierPatch.ts:56-104 | Each of the eight edge points gets the interpolation of its edge's two corner colours at 0.33 or 0.67. Only colours change: every point keeps its position, radius, state and drag flag, and no other slot changes. |
| `BezierPatches.CalculateInteriorPoints` | src/BezierPatch.ts:106-137 | Only the four interior slots are written, each with the Coons point at u = j/3, v = i/3; all twelve boundary slots are unchanged. |
| `BezierPatches.CalculateInteriorPointsDerives` | src/BezierPatch.ts:106-137 | After the recomputation, the interior agrees with the Coons formula applied to the resulting grid's own boundary. |
| `BezierPatches.CalculateInteriorPointsIdempotent` | src/BezierPatch.ts:106-137 | The recomputation changes nothing when the interior is already derived, so applying it twice equals applying it once. |
| `BezierPatches.DerivedGridDeterminedByBoundary` | src/BezierPatch.ts:106-137 | Two grids whose interiors are derived and whose boundaries agree are equal. |
| `BezierPatches.CoonsPoint` | src/BezierPatch.ts:108-134 | Each interior point is a new point: default radius, idle, not dragging, and without colour. Its position is the source's Coons formula, given by the body. `BezierPatches.CoonsReproducesBoundary` states that the formula returns a boundary slot's own position. `BezierPatches.CoonsPointReadsBoundary` states that it reads only the boundary. |
| `BezierPatches.CoonsReproducesBoundary` | src/BezierPatch.ts:130-134 | Evaluated at a boundary slot, the Coons formula returns that slot's own position. |
| `BezierPatches.InitialGrid` | src/BezierPatch.ts:15-47 | The initial layout is a 4×4 grid whose four corners are coloured. |
| `BezierPatches.InitialGridLayout` | src/BezierPatch.ts:15-47 | The initial layout puts red at (x, y), green at (x+w, y), blue at (x+w, y+h) and yellow at (x, y+h), with edge points at 0.33 and 0.67 of each side. |
| `BezierPatches.NewPatch` | src/BezierPatch.ts:10-54 | A new patch has derived edge colours and a derived interior, no selection, no hover, no drag, and the corners of the initial layout. Every boundary point is the initial layout's point with at most its colour changed. |
| `BezierPatches.ColorThenDerive` | src/BezierPatch.ts:49-53 | Deriving edge colours and then the interior gives a consistent grid with the input's boundary positions and corners. |
| `BezierPatches.NewPatchCorners` | src/BezierPatch.ts:20-30 | The constructor's corners are red (x, y), green (x+w, y), blue (x+w, y+h) and yellow (x, y+h). |
| `BezierPatches.EvaluatePoint` | src/BezierPatch.ts:159-214 | The surface point is a new point: default radius, idle, not dragging, uncoloured. Its position at every parameter pair is stated by `BezierPatches.EvaluatePointIsCoons`. |
| `BezierPatches.EvaluatePointIsCoons` | src/BezierPatch.ts:159-214 | At the clamped parameters u and v, each coordinate is `top·(1−v) + bottom·v + left·(1−u) + right·u − bilinear`. The four boundary cubics are computed by de Casteljau's construction, independently of the Bernstein sums the code uses, and the last term is the bilinear blend of the four corners. |
| `BezierPatches.BezierCurveIsDeCasteljau` | src/BezierPatch.ts:173-192 | A boundary curve summed over the Bernstein coefficients is, in each coordinate, the de Casteljau point at the same parameter. |
| `BezierPatches.EvaluatePointOnBoundary` | src/BezierPatch.ts:159-214 | On v ≤ 0, v ≥ 1, u ≤ 0 and u ≥ 1 the surface is the cubic Bézier of row 0, row 3, column 0 and column 3, at the clamped parameter. |
| `BezierPatches.EvaluatePointTopEdge` | src/BezierPatch.ts:159-214 | For v ≤ 0 the surface is the cubic Bézier of row 0 at the clamped u. |
| `BezierPatches.EvaluatePointBottomEdge` | src/BezierPatch.ts:159-214 | For v ≥ 1 the surface is the cubic Bézier of row 3 at the clamped u. |
| `BezierPatches.EvaluatePointLeftEdge` | src/BezierPatch.ts:159-214 | For u ≤ 0 the surface is the cubic Bézier of column 0 at the clamped v. |
| `BezierPatches.EvaluatePointRightEdge` | src/BezierPatch.ts:159-214 | For u ≥ 1 the surface is the cubic Bézier of column 3 at the clamped v. |
| `BezierPatches.EvaluatePointCorners` | src/BezierPatch.ts:159-214 | The parameter corners evaluate to the four corner control points exactly. |
| `BezierPatches.EvaluatePointClamps` | src/BezierPatch.ts:160-161 | Out-of-range parameters evaluate like their clamped values. |
| `BezierPatches.EvaluatePointIgnoresInterior` | src/BezierPatch.ts:173-202 | Patches with the same boundary positions evaluate to the same surface: interior points and colours are never read. |
| `BezierPatches.EvaluateColor` | src/BezierPatch.ts:226-250 | Each channel of the colour is the bilinear blend of that channel of the four corner colours. |
| `BezierPatches.EvaluateColorCorners` | src/BezierPatch.ts:226-238 | The parameter corners yield the four corner colours exactly. |
| `BezierPatches.EvaluateColorIgnoresEdgeColors` | src/BezierPatch.ts:226-238 | Patches with the same corner colours have the same colour field; edge-point colours and all positions are ignored. |
| `BezierPatches.EvaluateColorNotClamped` | src/BezierPatch.ts:226-238 | Colour parameters are not clamped: at u = −1 a new patch's colour has red 510 and green −255. |
| `BezierPatches.MoveControlPoint` | src/BezierPatch.ts:252-260 | An interior slot leaves the patch unchanged; a boundary test met outside the grid is an error; otherwise the patch gets the moved grid. |
| `BezierPatches.MoveGrid` | src/BezierPatch.ts:256-259 | The moved slot has the new x and y and keeps its colour; every other boundary slot and every boundary colour is kept; the interior is re-derived. |
| `BezierPatches.MoveGridCharacterized` | src/BezierPatch.ts:252-260 | Any derived grid with the moved point and the other boundary slots of the original is the result of the move. |
| `BezierPatches.MoveControlPointKeepsConsistent` | src/BezierPatch.ts:252-260 | Moving an in-grid slot succeeds and keeps shape, corner colours, derived edge colours, derived interior and selection validity. |
| `BezierPatches.MoveBackRestores` | src/BezierPatch.ts:252-260 | Moving a boundary point away and back restores the patch exactly, interior included. |
| `BezierPatches.MoveInPlace` | src/BezierPatch.ts:252-260 | Moving a point to where it already is changes nothing once the interior is derived. |
| `BezierPatches.MoveControlPointIdempotent` | src/BezierPatch.ts:252-260 | Moving the same point to the same place twice equals moving it once. |
| `BezierPatches.MoveThenGet` | src/BezierPatch.ts:252-264 | After a move, reading the slot back gives the old point with the new x and y. |
| `BezierPatches.MoveInteriorIgnored` | src/main.ts:13 | The demo's move of interior slot (1, 1) on a fresh patch leaves the patch unchanged. |
| `BezierPatches.GetControlPoint` | src/BezierPatch.ts:262-264 | A point is returned exactly for in-grid indices, and it is the stored one. |
| `BezierPatches.SlotIndex` | src/BezierPatch.ts:314-316 | Every boundary slot has a position below 12 in the scan order, and the scan's slot at that position is itself. |
| `BezierPatches.BoundarySlotsOrdered` | src/BezierPatch.ts:314-316 | The scan visits exactly the twelve boundary slots, in increasing row-major order. |
| `BezierPatches.FindNearestControlPoint` | src/BezierPatch.ts:306-332 | The result is a boundary slot of least distance to (x, y), at the reported distance; every boundary slot earlier in row-major order is strictly farther. |
| `BezierPatches.NearestAtBoundaryPoint` | src/BezierPatch.ts:306-332 | Querying exactly at a boundary point finds that point at distance 0 when no earlier boundary slot sits at the same place. |
| `BezierPatches.HandleMouseMove` | src/BezierPatch.ts:266-285 | Keeps validity; while dragging a selected slot it is the drag branch, otherwise the hover branch. |
| `BezierPatches.DragTo` | src/BezierPatch.ts:267-273 | The selected point moves to the pointer. Only its x and y change: its colour, radius, state and drag flag are kept. Other boundary slots, selection, hover and drag flag are kept, and the interior is re-derived. |
| `BezierPatches.HoverAt` | src/BezierPatch.ts:276-284 | Grid, selection and drag flag are kept; a slot is hovered iff some boundary point is within the hit radius. The hovered slot is then a nearest boundary point, and every boundary slot before it in row-major order is strictly farther (ties go to the earlier slot). |
| `BezierPatches.HandleMouseDown` | src/BezierPatch.ts:287-299 | If some boundary point is within the hit radius, dragging starts. The selected slot is then a nearest boundary point, and every boundary slot before it in row-major order is strictly farther. Otherwise nothing changes. The grid and hover are kept. |
| `BezierPatches.HandleMouseUp` | src/BezierPatch.ts:301-304 | Dragging stops and the selection is dropped; grid and hover are kept. |
| `BezierPatches.HandleMouseUpIdempotent` | src/BezierPatch.ts:301-304 | Releasing twice equals releasing once. |
| `BezierPatches.HandlersKeepConsistent` | src/BezierPatch.ts:266-304 | All three handlers keep every patch invariant (derived colours and interior included). |
| `BezierPatches.DragTopLeftCorner` | src/BezierPatch.ts:266-299 | Pressing on the top-left corner selects it and starts a drag; the next move puts the corner under the pointer and leaves hover alone. |
| `KnotPoints.NewKnot` | src/KnotPoint.ts:9-13 | A new knot has the given position and colour and no connections. |
| `KnotPoints.AddConnection` | src/KnotPoint.ts:15-17 | The connection is appended at the end; earlier connections, position and colour are kept. |
| `KnotPoints.AdjacentMoves` | src/KnotPoint.ts:38-50 | A connection issues at most four nudges, all on its own patch and all carrying the full delta. |
| `KnotPoints.CornerNudges` | src/KnotPoint.ts:38-50 | Each corner nudges exactly its two edge neighbours: (0,0) → (0,1), (1,0); (0,3) → (0,2), (1,3); (3,0) → (3,1), (2,0); (3,3) → (3,2), (2,3). |
| `KnotPoints.PositionCalls` | src/KnotPoint.ts:29-51 | The log holds exactly one position update per connection, in connection order, to the new position; every nudge carries the delta; every call goes to a connected patch. |
| `KnotPoints.CornerConnectionCalls` | src/KnotPoint.ts:35-50 | For a corner connection, the calls are its position update, then the nudge of its row neighbour, then the nudge of its column neighbour. |
| `KnotPoints.SetPositionAtCorners` | src/KnotPoint.ts:19-52 | When every connection of a knot is a corner, the move's log is one block per connection in connection order: that slot's position update, then the nudges of its row neighbour and its column neighbour, each carrying new minus old position. |
| `KnotPoints.PositionCallsAtCorners` | src/KnotPoint.ts:29-51 | When every connection is a corner, the log is one block of three calls per connection, in connection order: the slot's position update, then the nudge of its row neighbour (column 1 next to column 0, column 2 next to column 3), then the nudge of its column neighbour (row 1 next to row 0, row 2 next to row 3). |
| `KnotPoints.SetPosition` | src/KnotPoint.ts:19-52 | The knot moves to (x, y) and keeps colour and connections; one position update per connection, in order; every nudge's delta is new minus old position. The log is exactly `PositionCalls` of the connections with that delta. |
| `KnotPoints.SetPositionToCurrent` | src/KnotPoint.ts:19-27 | Setting the current position leaves the knot unchanged, and every nudge has a zero delta. |
| `KnotPoints.ColorCalls` | src/KnotPoint.ts:56-59 | One colour update per connection, in connection order, carrying the new colour. |
| `KnotPoints.SetColor` | src/KnotPoint.ts:54-60 | The colour is stored; position and connections are kept; exactly one colour update per connection, in order. |
| `KnotPoints.GettersReadBack` | src/KnotPoint.ts:62-68 | The getters return the last stored position and colour, and each setter leaves the other getter's value alone. |
| `KnotPoints.GetPosition` | src/KnotPoint.ts:62-64 | Moving the knot to the returned position leaves it unchanged. |
| `KnotPoints.GetColor` | src/KnotPoint.ts:66-68 | Re-applying the returned colour leaves the knot unchanged. |
| `KnotPoints.SetColorToCurrent` | src/KnotPoint.ts:54-68 | Re-applying a knot's own colour leaves the knot unchanged. |
| `PatchManagers.BlockPatch` | src/PatchManager.ts:14-24 | Patch [row][col] of the block is valid, and its corners are those of the pw × ph rectangle at (x + col·pw, y + row·ph). |
| `PatchManagers.BlockKnots` | src/PatchManager.ts:36-64 | A block has five knots, each joined to at least two patch slots, pushed in the order centre, top-middle, bottom-middle, left-middle, right-middle. Their positions are (x+pw, y+ph), (x+pw, y), (x+pw, y+2·ph), (x, y+ph) and (x+2·pw, y+ph). Their colours are white, green (the top-right corner colour), blue (bottom-right), yellow (bottom-left) and blue (bottom-right). |
| `PatchManagers.BlockPatches` | src/PatchManager.ts:14-24 | The block consists of exactly four valid patches. |
| `PatchManagers.BlockLayout` | src/PatchManager.ts:14-24 | The i-th pushed patch is patch [i / 2][i % 2]: a valid patch whose corners are those of the pw × ph rectangle at (x + (i % 2)·pw, y + (i / 2)·ph). |
| `PatchManagers.CreatePatchGrid` | src/PatchManager.ts:10-72 | Keeps the manager valid; appends the four block patches and the five knots (wired to the new handles) without touching earlier ones; returns the 2×2 handles row by row; keeps the selection; the refresh covers every knot of the manager. |
| `PatchManagers.BlockKnotConnections` | src/PatchManager.ts:36-64 | The five knots have 4, 2, 2, 2 and 2 connections, each to a corner slot of one of the block's four patches. |
| `PatchManagers.BlockClaimsDistinct` | src/PatchManager.ts:37-61 | No (patch, row, col) slot is claimed by two connections, and the block's four outer corners are claimed by none. |
| `PatchManagers.WiringMeetsLayout` | src/PatchManager.ts:37-61 | For any four patches with the block's corner layout, every knot sits on every slot it is connected to. |
| `PatchManagers.BlockKnotsOnCorners` | src/PatchManager.ts:37-61 | Each knot's position equals the initial position of every patch corner it is connected to. |
| `PatchManagers.CreatePatchGridKeepsKnotsOnSlots` | src/PatchManager.ts:10-72 | If every knot sits on its connected slots before building a block, that still holds afterwards. |
| `PatchManagers.AppendKeepsKnotsOnSlots` | src/PatchManager.ts:22-63 | Appending patches, and knots that sit on slots of the appended patches, keeps the manager valid and every knot on its slots. |
| `PatchManagers.RefreshColors` | src/PatchManager.ts:66-69 | The forced refresh issues only colour updates. Which ones, and in what order, is `PatchManagers.RefreshColorsInOrder`. |
| `PatchManagers.RefreshColorsCount` | src/PatchManager.ts:66-69 | The refresh issues one call per connection over all knots. |
| `PatchManagers.RefreshColorsInOrder` | src/PatchManager.ts:66-69 | The refresh covers every connection of every knot, in order. Connection c of knot k gets call number c after all connections of the knots before k, and that call sets the slot to knot k's colour. |
| `PatchManagers.RefreshColorsAt` | src/PatchManager.ts:66-69 | The same fact for one knot k and one connection c. |
| `PatchManagers.RefreshColorsFromKnots` | src/PatchManager.ts:66-69 | Every refresh call updates a slot some knot is connected to, with that knot's own colour. |
| `PatchManagers.BlockConnectionCount` | src/PatchManager.ts:37-61 | The five knots of a block have twelve connections between them. |
| `PatchManagers.FreshGrid` | src/PatchManager.ts:10-72 | On an empty manager the result holds exactly the block's five knots, nothing selected, every knot on its corners, and a refresh of twelve calls. |
| `PatchManagers.FindNearestKnot` | src/PatchManager.ts:104-121 | Nothing is returned iff there are no knots; otherwise a knot of least distance at the reported distance, with every earlier knot strictly farther. |
| `PatchManagers.HandleMouseDown` | src/PatchManager.ts:86-97 | When a knot is within the hit radius, a nearest one is selected, every earlier knot being strictly farther, and no patch changes. Otherwise the selection is kept and every patch runs its own mouse-down. Knots never change. |
| `PatchManagers.HandleMouseMove` | src/PatchManager.ts:78-84 | With a selected knot, only that knot moves, no patch changes and the log is that knot's position calls. Otherwise every patch runs its own mouse-move and nothing is logged. |
| `PatchManagers.HandleMouseUp` | src/PatchManager.ts:99-102 | The knot selection is cleared and every patch stops dragging and drops its selection; grids, hover and knots are kept. |
| `PatchManagers.HandleMouseUpIdempotent` | src/PatchManager.ts:99-102 | Releasing twice equals releasing once. |
| `PatchManagers.PressCenterKnot` | src/PatchManager.ts:86-97 | With the knots of a 100 × 100 block at the origin, pressing on (100, 100) selects the centre knot and changes nothing else. |
| `PatchManagers.DragSelectedCenterKnot` | src/PatchManager.ts:78-84 | With the centre knot selected, moving to (120, 130) moves it there, changes no patch, and updates corners (3,3), (3,0), (0,3), (0,0) of patches 0 to 3. |
| `PatchManagers.DragCenterKnot` | src/PatchManager.ts:78-97 | Pressing on the centre knot and dragging it to (120, 130) gives the four corner position updates and moves no patch. |

## Left out

- Canvas drawing is not modelled, because it is a rendering side effect only. This covers `render` and `renderControlPoints` of the patch, the manager's `render`, and `draw` of curve, point and rectangle.
- DOM and window plumbing (`src/main.ts` apart from its one `moveControlPoint` call, and `src/MeshGrad.ts`) is not modelled: event listeners, resize and animation frames.
- `StyleConfig` and the style strings of `src/interfaces.ts` are not modelled. `InteractState` is the three-constructor `Points.InteractState`.
- The observer registry is not modelled, because it is arbitrary function storage. This covers `Point.on`, `emit`, `onHover`, `onSelect` and `onIdle`, and `Curve.setupEvents`. Only the state an operation leaves behind is modelled.
- The `rgba(...)` string and the `Math.round` of `evaluateColor` are formatting: `BezierPatches.EvaluateColor` stops at the colour value.
- Floating point is modelled as exact reals: no rounding, NaN or Infinity. `Math.sqrt` and `Math.pow` distances are squared distances; `Nearest.HitRadiusSquared` gives the equivalence.
- The TypeError the source throws at a knot's first patch call is not modelled. The patch class defines none of `updateKnotPosition`, `moveAdjacentControlPoint` and `updateKnotColor`. The calls the code attempts are logged, not applied.
  - A knot drag therefore moves no patch corner.
  - "Every knot sits on its slots" is proved for building blocks only (`PatchManagers.CreatePatchGridKeepsKnotsOnSlots`), not across knot drags.
- Object identity is not modelled. Points, patches and knots are values, so aliasing between objects is not represented.
  - The manager's selected knot is an index into its knot list.
  - A knot's patch is an index into the manager's patch list.
- `createPatchGrid` returns the live knot list; here the result is the manager itself together with the 2×2 handle grid.
- `Nearest.Dist2`: states non-negativity and zero distance between equal points. It does not state the converse (zero distance only between equal points), which no other property needs.
- BezierPatches.NewPatch: states the edge positions through `SameBoundaryPositions` with the initial layout. `BezierPatches.InitialGridLayout` states where that layout puts them.
- BezierPatches.NearestAtBoundaryPoint: requires that no earlier boundary slot lies at the same place. The source's strict `<` makes the earlier slot win such a tie, as `BezierPatches.FindNearestControlPoint` states.
- KnotPoints.PositionCalls: its own contract states the position updates, the deltas and the patches of the log. The full order (each slot's update followed by its own nudges, connection by connection) is stated for corner slots, the only slots the manager ever connects, by `KnotPoints.PositionCallsAtCorners`. For edge slots it follows only from `KnotPoints.AdjacentMoves`, with no lemma about the whole log.
- KnotPoints.SetPosition: the source as written throws a TypeError at the first `updateKnotPosition` call, after storing x and y. The model returns the moved knot together with the log of every call the code attempts, as if each call succeeded.
- KnotPoints.SetColor: the source as written throws a TypeError at the first `updateKnotColor` call, after storing the colour. The model returns the recoloured knot with the log of attempted calls.
- PatchManagers.HandleMouseMove: with a selected knot that has connections, the source throws inside `setPosition`. The model returns the moved knot and the log instead.
- BezierPatches.GetControlPoint: a row outside 0..3 throws a TypeError in the source, while a column outside 0..3 returns `undefined`. Both become `None`.
- PatchManagers.RefreshColors: its own contract states only that every call is a colour update. Count, coverage and order are `PatchManagers.RefreshColorsCount` and `PatchManagers.RefreshColorsInOrder`.
- Points.IsHovered: no contract of its own. `Points.IsSelect` and `Points.IsIdle` state how it relates to the other two state tests.
- Points.IsDragging: no contract of its own. The drag flag it reads is stated by `Points.Drag`, `Points.Drop` and `Points.DragDropIndependent`.
- PatchManagers.CreatePatchGrid: the source as written throws a TypeError in the colour refresh at the first knot with a connection, so it never returns. The model completes the refresh: the knots stay as built, because the refresh re-stores each knot's own colour (`KnotPoints.SetColorToCurrent`), and its calls to patches are only logged.
- PatchManagers.DragCenterKnot: stated for any valid manager whose knots are exactly those of a 100 × 100 block at the origin, which `PatchManagers.FreshGrid` shows building such a block produces.
