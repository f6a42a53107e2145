/**
 * A single cubic Bézier segment with hover/select state, as in `src/Curve.ts`.
 * The style configuration and the callbacks wired in `setupEvents` are not
 * modelled; the points are held by value.
 */
module Curves {
  import Points
  import opened Bezier

  /** The four points p1..p4 in order, and the interaction state. */
  datatype Curve = Curve(points: seq<Points.Point>, state: Points.InteractState)

  /** Every curve the constructor builds has exactly four points. */
  predicate Valid(c: Curve) { |c.points| == 4 }

  function NewCurve(p1: Points.Point, p2: Points.Point, p3: Points.Point, p4: Points.Point): (c: Curve)
    ensures Valid(c)
    ensures c.points[0] == p1 && c.points[1] == p2 && c.points[2] == p3 && c.points[3] == p4
    ensures IsIdle(c)
  {
    Curve([p1, p2, p3, p4], Points.Default)
  }

  /** x of the curve at t = 0.5, with the powers of the source written as products. */
  function MidX(c: Curve): real
    requires Valid(c)
  {
    var t := 0.5;
    (1.0 - t) * (1.0 - t) * (1.0 - t) * c.points[0].x + 3.0 * ((1.0 - t) * (1.0 - t)) * t * c.points[1].x
      + 3.0 * (1.0 - t) * (t * t) * c.points[2].x + t * t * t * c.points[3].x
  }

  /** y of the curve at t = 0.5, with the powers of the source written as products. */
  function MidY(c: Curve): real
    requires Valid(c)
  {
    var t := 0.5;
    (1.0 - t) * (1.0 - t) * (1.0 - t) * c.points[0].y + 3.0 * ((1.0 - t) * (1.0 - t)) * t * c.points[1].y
      + 3.0 * (1.0 - t) * (t * t) * c.points[2].y + t * t * t * c.points[3].y
  }

  /**
   * Hit test against the curve's midpoint only: a 10×10 open square around
   * B(0.5), which is the hit test of a default-radius point placed there.
   */
  predicate IsPointInCurve(c: Curve, x: real, y: real)
    requires Valid(c)
    ensures IsPointInCurve(c, x, y) <==> Points.IsPointInPoint(Points.NewPoint(MidX(c), MidY(c)), x, y)
  {
    Points.Abs(x - MidX(c)) < 5.0 && Points.Abs(y - MidY(c)) < 5.0
  }

  function SetHover(c: Curve): (r: Curve)
    ensures IsHovered(r) && !IsSelect(r) && !IsIdle(r)
    ensures r.points == c.points
  {
    c.(state := Points.Hover)
  }

  function SetSelect(c: Curve): (r: Curve)
    ensures IsSelect(r) && !IsHovered(r) && !IsIdle(r)
    ensures r.points == c.points
  {
    c.(state := Points.Select)
  }

  function SetIdle(c: Curve): (r: Curve)
    ensures IsIdle(r) && !IsHovered(r) && !IsSelect(r)
    ensures r.points == c.points
  {
    c.(state := Points.Default)
  }

  predicate IsHovered(c: Curve) { c.state == Points.Hover }

  predicate IsIdle(c: Curve) { c.state == Points.Default }

  predicate IsSelect(c: Curve) { c.state == Points.Select }

  /** Writing any of the four returned points back leaves the curve as it was. */
  function GetPoints(c: Curve): (ps: seq<Points.Point>)
    ensures |ps| == |c.points|
    ensures Valid(c) ==> SetStartPoint(c, ps[0]) == c && SetEndPoint(c, ps[3]) == c
    ensures Valid(c) ==> SetControlPoint1(c, ps[1]) == c && SetControlPoint2(c, ps[2]) == c
  {
    c.points
  }

  function SetStartPoint(c: Curve, p: Points.Point): (r: Curve)
    requires Valid(c)
    ensures Valid(r) && r.state == c.state
    ensures r.points[0] == p
    ensures forall i :: 1 <= i < 4 ==> r.points[i] == c.points[i]
  {
    c.(points := c.points[0 := p])
  }

  function SetEndPoint(c: Curve, p: Points.Point): (r: Curve)
    requires Valid(c)
    ensures Valid(r) && r.state == c.state
    ensures r.points[3] == p
    ensures forall i :: 0 <= i < 3 ==> r.points[i] == c.points[i]
  {
    c.(points := c.points[3 := p])
  }

  function SetControlPoint1(c: Curve, p: Points.Point): (r: Curve)
    requires Valid(c)
    ensures Valid(r) && r.state == c.state
    ensures r.points[1] == p
    ensures forall i :: 0 <= i < 4 && i != 1 ==> r.points[i] == c.points[i]
  {
    c.(points := c.points[1 := p])
  }

  function SetControlPoint2(c: Curve, p: Points.Point): (r: Curve)
    requires Valid(c)
    ensures Valid(r) && r.state == c.state
    ensures r.points[2] == p
    ensures forall i :: 0 <= i < 4 && i != 2 ==> r.points[i] == c.points[i]
  {
    c.(points := c.points[2 := p])
  }

  /** Setting control point 1 to what this returns leaves the curve as it was. */
  function GetControlPoint1(c: Curve): (p: Points.Point)
    requires Valid(c)
    ensures SetControlPoint1(c, p) == c
  {
    c.points[1]
  }

  /** Setting control point 2 to what this returns leaves the curve as it was. */
  function GetControlPoint2(c: Curve): (p: Points.Point)
    requires Valid(c)
    ensures SetControlPoint2(c, p) == c
  {
    c.points[2]
  }

  /**
   * The hit test is the open 10×10 square around (p1 + 3·p2 + 3·p3 + p4) / 8,
   * which is the point the Bernstein basis gives at t = 0.5.
   */
  lemma IsPointInCurveMidpoint(c: Curve, x: real, y: real)
    requires Valid(c)
    ensures var p := c.points;
      IsPointInCurve(c, x, y) <==>
        (Points.Abs(x - (p[0].x + 3.0 * p[1].x + 3.0 * p[2].x + p[3].x) / 8.0) < 5.0
         && Points.Abs(y - (p[0].y + 3.0 * p[1].y + 3.0 * p[2].y + p[3].y) / 8.0) < 5.0)
    ensures var p := c.points;
      MidX(c) == CubicSum(p[0].x, p[1].x, p[2].x, p[3].x, BernsteinCoefficients(0.5))
      && MidY(c) == CubicSum(p[0].y, p[1].y, p[2].y, p[3].y, BernsteinCoefficients(0.5))
  {
  }

  /** Reading a control point back after setting it returns the point set. */
  lemma ControlPointRoundTrip(c: Curve, p: Points.Point)
    requires Valid(c)
    ensures GetControlPoint1(SetControlPoint1(c, p)) == p
    ensures GetControlPoint2(SetControlPoint2(c, p)) == p
    ensures GetControlPoint1(SetControlPoint2(c, p)) == GetControlPoint1(c)
    ensures GetControlPoint2(SetControlPoint1(c, p)) == GetControlPoint2(c)
  {
  }
}
