/** Fitting the lane lines (computeLaneLines): a second-degree polynomial x = a*y^2 + b*y + c
    per line, sampled at the line's own pixel rows, unless a line is missing, in which
    case nothing is fitted for either line. The least-squares solver is a parameter. */
module Fit {

  /** The coefficients np.polyfit(ys, xs, 2) returns, highest degree first. */
  datatype Quadratic = Quadratic(a: real, b: real, c: real)
  {
    /** The fit as the array [a, b, c]. */
    function Coefficients(): (cs: seq<real>)
      ensures |cs| == 3 && cs[0] == a && cs[1] == b && cs[2] == c
    {
      [a, b, c]
    }

    /** The curve's x at row y. */
    function At(y: real): real
    {
      a * y * y + b * y + c
    }
  }

  /** np.polyfit(ys, xs, 2): a floating-point least-squares fit, outside this model. */
  type Fitter = (seq<real>, seq<real>) -> Quadratic

  /** The coordinates of a pixel cloud as the float arrays NumPy holds them in. */
  function Reals(s: seq<int>): (r: seq<real>)
    ensures |r| == |s|
    ensures forall i :: 0 <= i < |s| ==> r[i] == s[i] as real
  {
    if s == [] then [] else Reals(s[..|s| - 1]) + [s[|s| - 1] as real]
  }

  /** fit[0] * yvals**2 + fit[1] * yvals + fit[2], elementwise: the curve whose
      coefficient array is q's, at every y. */
  function Sample(q: Quadratic, ys: seq<int>): (fx: seq<real>)
    ensures SampledAt(q.Coefficients(), fx, ys)
  {
    seq(|ys|, i requires 0 <= i < |ys| => q.At(ys[i] as real))
  }

  /** The four arrays computeLaneLines returns: each line's coefficients and its fitted
      x at every pixel row of the line. */
  datatype LaneFits = LaneFits(leftFit: seq<real>, leftFitX: seq<real>, rightFit: seq<real>, rightFitX: seq<real>)

  /** fitx is the curve with coefficients fit (highest degree first) at every y of ys. */
  predicate SampledAt(fit: seq<real>, fitx: seq<real>, ys: seq<int>)
  {
    |fit| == 3 && |fitx| == |ys| &&
    forall i :: 0 <= i < |ys| ==>
      fitx[i] == Quadratic(fit[0], fit[1], fit[2]).At(ys[i] as real)
  }

  /** computeLaneLines: when any of the four coordinate arrays is empty, all four results
      are empty; otherwise each line gets the solver's fit of its x against its y and
      that curve sampled at its own y values. */
  function ComputeLaneLines(leftXs: seq<int>, leftYs: seq<int>, rightXs: seq<int>, rightYs: seq<int>,
                            polyfit: Fitter): (r: LaneFits)
    ensures r.leftFit == [] <==> (leftXs == [] || leftYs == [] || rightXs == [] || rightYs == [])
    ensures r.leftFit == [] ==> r.leftFitX == [] && r.rightFit == [] && r.rightFitX == []
    ensures r.leftFit != [] ==>
      r.leftFit == polyfit(Reals(leftYs), Reals(leftXs)).Coefficients() &&
      r.rightFit == polyfit(Reals(rightYs), Reals(rightXs)).Coefficients() &&
      SampledAt(r.leftFit, r.leftFitX, leftYs) && SampledAt(r.rightFit, r.rightFitX, rightYs)
  {
    if leftXs == [] || leftYs == [] || rightXs == [] || rightYs == [] then
      LaneFits([], [], [], [])
    else
      var left := polyfit(Reals(leftYs), Reals(leftXs));
      var right := polyfit(Reals(rightYs), Reals(rightXs));
      LaneFits(left.Coefficients(), Sample(left, leftYs),
               right.Coefficients(), Sample(right, rightYs))
  }

  /** The guard is symmetric in the two lines: the right line is fitted exactly when the
      left one is, and a fitted line's samples are as many as its pixels. */
  lemma FitsTogether(leftXs: seq<int>, leftYs: seq<int>, rightXs: seq<int>, rightYs: seq<int>, polyfit: Fitter)
    requires |leftXs| == |leftYs| && |rightXs| == |rightYs|
    ensures var r := ComputeLaneLines(leftXs, leftYs, rightXs, rightYs, polyfit);
      (r.leftFit == [] <==> r.rightFit == []) &&
      (r.leftFit == [] <==> leftXs == [] || rightXs == []) &&
      |r.leftFitX| == (if r.leftFit == [] then 0 else |leftXs|) &&
      |r.rightFitX| == (if r.rightFit == [] then 0 else |rightXs|)
  {
  }
}
