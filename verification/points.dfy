/**
 * The interactive point of `src/Point.ts`, the `InteractState` enum of
 * `src/interfaces.ts` and the RGBA colour record the patch code attaches to
 * its control points.
 *
 * The observer registry (`on`, `emit`, `onHover`, ...) is not modelled: only
 * the state each operation leaves behind is.
 */
module Points {
  import opened Options

  /** Hover/select state of a point or curve; `Default` is the idle state. */
  datatype InteractState = Default | Hover | Select

  /** An RGBA colour. Red, green and blue run over 0..255 and alpha over 0..1 by convention only. */
  datatype Color = Color(r: real, g: real, b: real, a: real)

  /** Radius a point gets when the constructor is not given one. */
  const DefaultRadius: real := 5.0

  /**
   * A point: position, hit radius, interaction state and drag flag. The patch
   * code also hangs an optional colour on its control points (the source adds
   * that field at run time), so it is part of the record here.
   */
  datatype Point = Point(x: real, y: real, r: real, state: InteractState, dragging: bool, color: Option<Color>)

  function Abs(a: real): (r: real)
    ensures r >= 0.0
    ensures r == a || r == -a
  {
    if a < 0.0 then -a else a
  }

  /** The constructor: idle, not dragging, no colour, radius `r` (5 unless given). */
  function NewPoint(x: real, y: real, r: real := DefaultRadius): (p: Point)
    ensures p.x == x && p.y == y && p.r == r
    ensures p.state == Default && !p.dragging && p.color == None
  {
    Point(x, y, r, Default, false, None)
  }

  predicate IsHovered(p: Point) { p.state == Hover }

  predicate IsSelect(p: Point)
    ensures IsSelect(p) ==> !IsHovered(p)
  {
    p.state == Select
  }

  /** The three interaction states are exclusive and cover every point. */
  predicate IsIdle(p: Point)
    ensures IsIdle(p) <==> !IsHovered(p) && !IsSelect(p)
  {
    p.state == Default
  }

  predicate IsDragging(p: Point) { p.dragging }

  /** Hit test: true exactly when (x, y) lies in the open square of half-side r around the point. */
  predicate IsPointInPoint(p: Point, x: real, y: real)
    ensures IsPointInPoint(p, x, y) ==> p.r > 0.0
  {
    Abs(p.x - x) < p.r && Abs(p.y - y) < p.r
  }

  /** Moves the point; nothing but the position changes. */
  function Move(p: Point, x: real, y: real): (q: Point)
    ensures q.x == x && q.y == y
    ensures q.r == p.r && q.state == p.state && q.dragging == p.dragging && q.color == p.color
  {
    p.(x := x, y := y)
  }

  function Drag(p: Point): (q: Point)
    ensures IsDragging(q)
    ensures q.x == p.x && q.y == p.y && q.r == p.r && q.state == p.state && q.color == p.color
  {
    p.(dragging := true)
  }

  function Drop(p: Point): (q: Point)
    ensures !IsDragging(q)
    ensures q.x == p.x && q.y == p.y && q.r == p.r && q.state == p.state && q.color == p.color
  {
    p.(dragging := false)
  }

  function SetHover(p: Point): (q: Point)
    ensures IsHovered(q) && !IsSelect(q) && !IsIdle(q)
    ensures q.x == p.x && q.y == p.y && q.r == p.r && q.dragging == p.dragging && q.color == p.color
  {
    p.(state := Hover)
  }

  function SetSelect(p: Point): (q: Point)
    ensures IsSelect(q) && !IsHovered(q) && !IsIdle(q)
    ensures q.x == p.x && q.y == p.y && q.r == p.r && q.dragging == p.dragging && q.color == p.color
  {
    p.(state := Select)
  }

  function SetIdle(p: Point): (q: Point)
    ensures IsIdle(q) && !IsHovered(q) && !IsSelect(q)
    ensures q.x == p.x && q.y == p.y && q.r == p.r && q.dragging == p.dragging && q.color == p.color
  {
    p.(state := Default)
  }

  /** A fresh point is idle, not dragging, and has radius 5 when none is given. */
  lemma NewPointDefaults(x: real, y: real)
    ensures NewPoint(x, y).r == 5.0
    ensures IsIdle(NewPoint(x, y)) && !IsHovered(NewPoint(x, y)) && !IsSelect(NewPoint(x, y))
    ensures !IsDragging(NewPoint(x, y))
  {
  }

  /** The hit test is the open axis-aligned square of half-side r, stated without `Abs`. */
  lemma IsPointInPointSquare(p: Point, x: real, y: real)
    ensures IsPointInPoint(p, x, y) <==> (p.x - p.r < x < p.x + p.r && p.y - p.r < y < p.y + p.r)
  {
  }

  /** Dragging and dropping never touch the interaction state, and drop undoes drag. */
  lemma DragDropIndependent(p: Point)
    ensures Drag(p).state == p.state && Drop(p).state == p.state
    ensures Drop(Drag(p)) == p.(dragging := false)
    ensures IsDragging(Drag(Drop(p)))
  {
  }
}
