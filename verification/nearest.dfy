/**
 * The nearest-point scan shared by `BezierPatch.findNearestControlPoint` and
 * `PatchManager.findNearestKnot`: walk the candidates in order and keep the
 * current best, replacing it only on a strictly smaller distance.
 *
 * Distances are squared. Both scans compare `Math.sqrt(dx² + dy²)` values with
 * each other and with the hit radius 10; squaring is strictly monotone on
 * non-negative reals (`SquareOrder`), so the winner and the `< 10` test are the
 * same on squared distances with radius 100.
 */
module Nearest {
  import opened Arith

  /** Squared Euclidean distance between (px, py) and (qx, qy). */
  function Dist2(px: real, py: real, qx: real, qy: real): (d: real)
    ensures d >= 0.0
    ensures px == qx && py == qy ==> d == 0.0
  {
    SquareNonNegative(px - qx);
    SquareNonNegative(py - qy);
    (px - qx) * (px - qx) + (py - qy) * (py - qy)
  }

  /** The hit radius 10 of both mouse-down handlers, squared. */
  const HitRadius2: real := 100.0

  /**
   * Index of the first minimum of `ds`: the scan of the source keeps the
   * earlier candidate on ties because it replaces only on `<`.
   */
  function FirstMin(ds: seq<real>): (k: nat)
    requires |ds| > 0
    ensures k < |ds|
    ensures forall j :: 0 <= j < |ds| ==> ds[k] <= ds[j]
    ensures forall j :: 0 <= j < k ==> ds[k] < ds[j]
    decreases |ds|
  {
    if |ds| == 1 then 0
    else
      var k := FirstMin(ds[..|ds| - 1]);
      if ds[|ds| - 1] < ds[k] then |ds| - 1 else k
  }

  /** The source's `distance < 10` on a Euclidean distance is `Dist2 < 100` on its square. */
  lemma HitRadiusSquared(dist: real)
    requires dist >= 0.0
    ensures dist < 10.0 <==> dist * dist < HitRadius2
  {
    SquareOrder(dist, 10.0);
  }
}
