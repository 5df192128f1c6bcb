/** The lane finder end to end (findLanePixels, findLaneLines): locate the two lines,
    track each with the default window settings, and fit a curve through each. */
module Lanes {
  import opened Grids
  import opened Peaks
  import opened Tracker
  import opened Fit

  /** What findLaneLines hands to the line objects: a line's pixels, its coefficients
      and its fitted x at each pixel row. */
  datatype LaneLine = LaneLine(xs: seq<int>, ys: seq<int>, fit: seq<real>, fitx: seq<real>)

  /** The pixel cloud findLinePixels collects for one line under the default settings,
      starting from center, given the windows won band by band. */
  ghost predicate Tracked(img: Grid, W: nat, mark: Marker, center: int, wins: seq<nat>, xs: seq<int>, ys: seq<int>)
    requires Fits(img, W, DefaultConfig)
  {
    |wins| == |Bands(img, DefaultConfig)| &&
    Chosen(img, W, DefaultConfig, center, wins) &&
    Cloud(xs, ys) == Collected(img, W, DefaultConfig, mark, wins)
  }

  /** findLanePixels: both lines' pixels, each tracked from its own starting column with
      the default settings; every pixel lies in the image and none is listed twice. */
  method FindLanePixels(img: Grid, W: nat, peaks: seq<nat>, mark: Marker)
    returns (leftXs: seq<int>, leftYs: seq<int>, rightXs: seq<int>, rightYs: seq<int>,
             ghost leftWins: seq<nat>, ghost rightWins: seq<nat>)
    requires Fits(img, W, DefaultConfig) && InColumns(peaks, W)
    ensures var (l, r) := FindLinePositions(img, W, peaks);
      Tracked(img, W, mark, l, leftWins, leftXs, leftYs) && Tracked(img, W, mark, r, rightWins, rightXs, rightYs)
    ensures |leftXs| == |leftYs| && InImage(Cloud(leftXs, leftYs), |img|, W) && Distinct(Cloud(leftXs, leftYs))
    ensures |rightXs| == |rightYs| && InImage(Cloud(rightXs, rightYs), |img|, W) && Distinct(Cloud(rightXs, rightYs))
  {
    var (xLeft, xRight) := FindLinePositions(img, W, peaks);
    leftXs, leftYs, leftWins := FindLinePixels(img, W, xLeft, DefaultConfig, mark);
    rightXs, rightYs, rightWins := FindLinePixels(img, W, xRight, DefaultConfig, mark);
  }

  /** findLaneLines: the two lines' pixels with their fitted curves; either both lines
      are fitted, each sampled at every one of its pixel rows inside the image, or
      neither is. */
  method FindLaneLines(img: Grid, W: nat, peaks: seq<nat>, mark: Marker, polyfit: Fitter)
    returns (left: LaneLine, right: LaneLine, ghost leftWins: seq<nat>, ghost rightWins: seq<nat>)
    requires Fits(img, W, DefaultConfig) && InColumns(peaks, W)
    ensures var fits := ComputeLaneLines(left.xs, left.ys, right.xs, right.ys, polyfit);
      left.fit == fits.leftFit && left.fitx == fits.leftFitX &&
      right.fit == fits.rightFit && right.fitx == fits.rightFitX
    ensures var (l, r) := FindLinePositions(img, W, peaks);
      Tracked(img, W, mark, l, leftWins, left.xs, left.ys) && Tracked(img, W, mark, r, rightWins, right.xs, right.ys)
    ensures left.fit == [] <==> right.fit == []
    ensures left.fit == [] <==> left.xs == [] || right.xs == []
    ensures left.fit != [] ==> SampledAt(left.fit, left.fitx, left.ys) && SampledAt(right.fit, right.fitx, right.ys)
    ensures forall i :: 0 <= i < |left.ys| ==> 0 <= left.ys[i] < |img|
    ensures forall i :: 0 <= i < |right.ys| ==> 0 <= right.ys[i] < |img|
  {
    var leftXs, leftYs, rightXs, rightYs;
    leftXs, leftYs, rightXs, rightYs, leftWins, rightWins := FindLanePixels(img, W, peaks, mark);
    var fits := ComputeLaneLines(leftXs, leftYs, rightXs, rightYs, polyfit);
    FitsTogether(leftXs, leftYs, rightXs, rightYs, polyfit);
    left := LaneLine(leftXs, leftYs, fits.leftFit, fits.leftFitX);
    right := LaneLine(rightXs, rightYs, fits.rightFit, fits.rightFitX);
  }
}
