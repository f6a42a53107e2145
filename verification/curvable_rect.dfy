/**
 * A rectangle drawn as four cubic curves (`src/CurvableRect.ts`): top, right,
 * bottom and left, clockwise from (x, y), each with its two control points at
 * 0.3 and 0.7 of the side.
 */
module CurvableRects {
  import Points
  import Curves

  datatype CurvableRect = CurvableRect(x: real, y: real, width: real, height: real, curves: seq<Curves.Curve>)

  function NewCurvableRect(x: real, y: real, width: real, height: real): (r: CurvableRect)
    ensures |r.curves| == 4
    ensures forall k :: 0 <= k < 4 ==> Curves.Valid(r.curves[k]) && Curves.IsIdle(r.curves[k])
    ensures r.x == x && r.y == y && r.width == width && r.height == height
  {
    var P := (px, py) => Points.NewPoint(px, py);
    CurvableRect(x, y, width, height, [
      Curves.NewCurve(P(x, y), P(x + width * 0.3, y), P(x + width * 0.7, y), P(x + width, y)),
      Curves.NewCurve(P(x + width, y), P(x + width, y + height * 0.3), P(x + width, y + height * 0.7), P(x + width, y + height)),
      Curves.NewCurve(P(x + width, y + height), P(x + width * 0.7, y + height), P(x + width * 0.3, y + height), P(x, y + height)),
      Curves.NewCurve(P(x, y + height), P(x, y + height * 0.7), P(x, y + height * 0.3), P(x, y))
    ])
  }

  /** A rectangle as the constructor builds it hands out four well-formed curves. */
  function GetCurves(r: CurvableRect): (cs: seq<Curves.Curve>)
    ensures r.(curves := cs) == r
    ensures r == NewCurvableRect(r.x, r.y, r.width, r.height) ==>
      |cs| == 4 && forall k :: 0 <= k < 4 ==> Curves.Valid(cs[k])
  {
    r.curves
  }

  function Start(c: Curves.Curve): Points.Point requires Curves.Valid(c) { c.points[0] }

  function End(c: Curves.Curve): Points.Point requires Curves.Valid(c) { c.points[3] }

  /** The four curves form a closed loop starting and ending at (x, y). */
  lemma ClosedLoop(x: real, y: real, width: real, height: real)
    ensures var cs := NewCurvableRect(x, y, width, height).curves;
      forall k :: 0 <= k < 4 ==>
        End(cs[k]).x == Start(cs[(k + 1) % 4]).x && End(cs[k]).y == Start(cs[(k + 1) % 4]).y
    ensures var cs := NewCurvableRect(x, y, width, height).curves;
      Start(cs[0]).x == x && Start(cs[0]).y == y
  {
  }

  /** Clockwise sides: top, right, bottom, left, each running between two rectangle corners. */
  lemma SidesClockwise(x: real, y: real, width: real, height: real)
    ensures var cs := NewCurvableRect(x, y, width, height).curves;
      && End(cs[0]).x == x + width && End(cs[0]).y == y
      && End(cs[1]).x == x + width && End(cs[1]).y == y + height
      && End(cs[2]).x == x && End(cs[2]).y == y + height
      && End(cs[3]).x == x && End(cs[3]).y == y
  {
  }

  /**
   * The control points of every curve lie on its straight side, at 0.3 and 0.7
   * of the way from the curve's own start point to its end point.
   */
  lemma ControlPointsOnSides(x: real, y: real, width: real, height: real)
    ensures var cs := NewCurvableRect(x, y, width, height).curves;
      forall k :: 0 <= k < 4 ==>
        && cs[k].points[1].x == Start(cs[k]).x + 0.3 * (End(cs[k]).x - Start(cs[k]).x)
        && cs[k].points[1].y == Start(cs[k]).y + 0.3 * (End(cs[k]).y - Start(cs[k]).y)
        && cs[k].points[2].x == Start(cs[k]).x + 0.7 * (End(cs[k]).x - Start(cs[k]).x)
        && cs[k].points[2].y == Start(cs[k]).y + 0.7 * (End(cs[k]).y - Start(cs[k]).y)
    ensures var cs := NewCurvableRect(x, y, width, height).curves;
      && (forall k | k in {0, 2} :: cs[k].points[1].y == Start(cs[k]).y && cs[k].points[2].y == Start(cs[k]).y)
      && (forall k | k in {1, 3} :: cs[k].points[1].x == Start(cs[k]).x && cs[k].points[2].x == Start(cs[k]).x)
  {
  }
}
