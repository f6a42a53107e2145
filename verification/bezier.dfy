/**
 * The interpolation arithmetic shared by the patch and the curve code of
 * `src/BezierPatch.ts` and `src/Curve.ts`: linear interpolation in the form the
 * source writes it, parameter clamping, and the cubic Bernstein basis.
 */
module Bezier {
  import opened Arith

  /** Linear interpolation written as the source writes it: `a·(1−t) + b·t`. */
  function Mix(a: real, b: real, t: real): (r: real)
    ensures t == 0.0 ==> r == a
    ensures t == 1.0 ==> r == b
    ensures a == b ==> r == a
  {
    Weighted(a, b, 1.0 - t, t)
  }

  /** `a·s + b·t`: linear interpolation with its two weights kept apart. */
  function Weighted(a: real, b: real, s: real, t: real): real
  {
    a * s + b * t
  }

  /** `Math.max(0, Math.min(1, t))`. */
  function Clamp01(t: real): (r: real)
    ensures 0.0 <= r <= 1.0
    ensures 0.0 <= t <= 1.0 ==> r == t
    ensures t < 0.0 ==> r == 0.0
    ensures t > 1.0 ==> r == 1.0
  {
    var m := if 1.0 < t then 1.0 else t;
    if 0.0 > m then 0.0 else m
  }

  /** The cubic Bernstein basis at t, as `getBernsteinCoefficients` builds it. */
  function BernsteinCoefficients(t: real): (b: seq<real>)
    ensures |b| == 4
  {
    var mt := 1.0 - t;
    [mt * mt * mt, 3.0 * t * mt * mt, 3.0 * t * t * mt, t * t * t]
  }

  /** Coordinate of a cubic Bézier with control values c0..c3 under basis values b. */
  function CubicSum(c0: real, c1: real, c2: real, c3: real, b: seq<real>): real
    requires |b| == 4
  {
    c0 * b[0] + c1 * b[1] + c2 * b[2] + c3 * b[3]
  }

  /** Independent reference evaluation of a cubic Bézier: three rounds of linear interpolation. */
  function DeCasteljau(c0: real, c1: real, c2: real, c3: real, t: real): real
  {
    var a, b, c := Mix(c0, c1, t), Mix(c1, c2, t), Mix(c2, c3, t);
    var d, e := Mix(a, b, t), Mix(b, c, t);
    Mix(d, e, t)
  }

  /** The four coefficients sum to one for every t: (1−t + t)³ = 1. */
  lemma BernsteinPartitionOfUnity(t: real)
    ensures var b := BernsteinCoefficients(t); b[0] + b[1] + b[2] + b[3] == 1.0
  {
  }

  /** On [0, 1] every coefficient is non-negative. */
  lemma BernsteinNonNegative(t: real)
    requires 0.0 <= t <= 1.0
    ensures forall i :: 0 <= i < 4 ==> BernsteinCoefficients(t)[i] >= 0.0
  {
    var mt := 1.0 - t;
    MulNonNegative(mt, mt);
    MulNonNegative(mt * mt, mt);
    MulNonNegative(3.0 * t, mt);
    MulNonNegative(3.0 * t * mt, mt);
    MulNonNegative(t, t);
    MulNonNegative(3.0 * t, t);
    MulNonNegative(3.0 * t * t, mt);
    MulNonNegative(t * t, t);
  }

  lemma BernsteinEndpoints()
    ensures BernsteinCoefficients(0.0) == [1.0, 0.0, 0.0, 0.0]
    ensures BernsteinCoefficients(1.0) == [0.0, 0.0, 0.0, 1.0]
  {
  }

  /** Parameters at or below 0 clamp to the start basis, those at or above 1 to the end basis. */
  lemma BernsteinClampedEndpoints(t: real)
    ensures t <= 0.0 ==> BernsteinCoefficients(Clamp01(t)) == [1.0, 0.0, 0.0, 0.0]
    ensures t >= 1.0 ==> BernsteinCoefficients(Clamp01(t)) == [0.0, 0.0, 0.0, 1.0]
  {
    var c := Clamp01(t);
    if t <= 0.0 {
      assert c == 0.0;
      BernsteinAtStart(c);
    }
    if t >= 1.0 {
      assert c == 1.0;
      BernsteinAtEnd(c);
    }
  }


  lemma BernsteinAtStart(c: real)
    requires c == 0.0
    ensures BernsteinCoefficients(c) == [1.0, 0.0, 0.0, 0.0]
  {
  }

  lemma BernsteinAtEnd(c: real)
    requires c == 1.0
    ensures BernsteinCoefficients(c) == [0.0, 0.0, 0.0, 1.0]
  {
  }

  /** The Bernstein sum is the de Casteljau construction. */
  lemma BernsteinIsDeCasteljau(c0: real, c1: real, c2: real, c3: real, t: real)
    ensures CubicSum(c0, c1, c2, c3, BernsteinCoefficients(t)) == DeCasteljau(c0, c1, c2, c3, t)
  {
    BernsteinSumExpanded(c0, c1, c2, c3, t);
    DeCasteljauExpanded(c0, c1, c2, c3, t);
  }

  /** The Bernstein sum written out as a polynomial in t and 1 − t. */
  lemma BernsteinSumExpanded(c0: real, c1: real, c2: real, c3: real, t: real)
    ensures var s := 1.0 - t;
      CubicSum(c0, c1, c2, c3, BernsteinCoefficients(t))
      == c0 * (s * s * s) + c1 * (3.0 * t * s * s) + c2 * (3.0 * t * t * s) + c3 * (t * t * t)
  {
  }

  /** The de Casteljau construction written out as the same polynomial. */
  lemma DeCasteljauExpanded(c0: real, c1: real, c2: real, c3: real, t: real)
    ensures var s := 1.0 - t;
      DeCasteljau(c0, c1, c2, c3, t)
      == c0 * (s * s * s) + c1 * (3.0 * t * s * s) + c2 * (3.0 * t * t * s) + c3 * (t * t * t)
  {
    DeCasteljauExpands(c0, c1, c2, c3, 1.0 - t, t);
  }

  /** Three rounds of weighted interpolation give the Bernstein form, for independent weights s and t. */
  lemma DeCasteljauExpands(c0: real, c1: real, c2: real, c3: real, s: real, t: real)
    ensures var a, b, c := Weighted(c0, c1, s, t), Weighted(c1, c2, s, t), Weighted(c2, c3, s, t);
      Weighted(Weighted(a, b, s, t), Weighted(b, c, s, t), s, t)
      == c0 * (s * s * s) + c1 * (3.0 * t * s * s) + c2 * (3.0 * t * t * s) + c3 * (t * t * t)
  {
    QuadraticStep(c0, c1, c2, s, t);
    QuadraticStep(c1, c2, c3, s, t);
    CubicStep(c0, c1, c2, c3, s, t);
  }

  /** (p·s + q·t)·s + (q·s + r·t)·t expanded, for independent s and t. */
  lemma QuadraticStep(p: real, q: real, r: real, s: real, t: real)
    ensures (p * s + q * t) * s + (q * s + r * t) * t == p * (s * s) + q * (2.0 * s * t) + r * (t * t)
  {
  }

  /** One more round of interpolation turns the two quadratic forms into the cubic one. */
  lemma CubicStep(c0: real, c1: real, c2: real, c3: real, s: real, t: real)
    ensures (c0 * (s * s) + c1 * (2.0 * s * t) + c2 * (t * t)) * s + (c1 * (s * s) + c2 * (2.0 * s * t) + c3 * (t * t)) * t
         == c0 * (s * s * s) + c1 * (3.0 * t * s * s) + c2 * (3.0 * t * t * s) + c3 * (t * t * t)
  {
  }
}
