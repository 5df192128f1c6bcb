/** Locating the two lane lines (findLinePositions): the column histogram of the lower
    half of the image, and the two peak columns with the largest histogram values. The
    peak detector itself is not modelled; its result, a sequence of column indices,
    is an input. */
module Peaks {
  import opened Grids

  /** Column j of img summed over rows [r0, r1): non-zero only when some pixel of the
      column segment is. */
  function ColumnSum(img: Grid, W: nat, r0: nat, r1: nat, j: nat): (s: int)
    requires IsImage(img, W) && r0 <= r1 <= |img| && j < W
    ensures s != 0 ==> exists r :: r0 <= r < r1 && img[r][j] != 0
    decreases r1 - r0
  {
    if r0 == r1 then 0 else ColumnSum(img, W, r0, r1 - 1, j) + img[r1 - 1][j]
  }

  /** np.sum(img[H // 2:, :], axis=0): one entry per column, the column's sum over the
      lower half of the rows. */
  function Histogram(img: Grid, W: nat): (h: seq<int>)
    requires IsImage(img, W)
    ensures |h| == W
  {
    seq(W, j requires 0 <= j < W => ColumnSum(img, W, |img| / 2, |img|, j))
  }

  /** A histogram entry is the pixel mass of the one-column window over the lower half. */
  lemma {:induction false} ColumnIsWindow(img: Grid, W: nat, r0: nat, r1: nat, j: nat)
    requires IsImage(img, W) && r0 <= r1 <= |img| && j < W
    ensures ColumnSum(img, W, r0, r1, j) == WindowSum(img, W, r0, r1, j, j + 1)
    decreases r1 - r0
  {
    if r0 < r1 {
      ColumnIsWindow(img, W, r0, r1 - 1, j);
      assert RowSum(img[r1 - 1], j, j + 1) == img[r1 - 1][j] by {
        assert RowSum(img[r1 - 1], j, j) == 0;
      }
    }
  }

  /** The histogram of an image without negative pixels has no negative entry. */
  lemma {:induction false} ColumnSumNonNegative(img: Grid, W: nat, r0: nat, r1: nat, j: nat)
    requires IsImage(img, W) && r0 <= r1 <= |img| && j < W
    requires forall r, c :: 0 <= r < |img| && 0 <= c < W ==> img[r][c] >= 0
    ensures ColumnSum(img, W, r0, r1, j) >= 0
    decreases r1 - r0
  {
    if r0 < r1 {
      ColumnSumNonNegative(img, W, r0, r1 - 1, j);
    }
  }

  /** Every peak names a column of the histogram. */
  predicate InColumns(peaks: seq<nat>, W: nat)
  {
    forall i :: 0 <= i < |peaks| ==> peaks[i] < W
  }

  /** Some index other than skip lies below n. */
  predicate HasOther(n: nat, skip: int)
  {
    n > (if 0 <= skip < n then 1 else 0)
  }

  /** An index i != skip of v whose value no other index but skip exceeds. */
  function BestIndex(v: seq<int>, skip: int): (i: nat)
    requires HasOther(|v|, skip)
    ensures i < |v| && i != skip
    ensures forall j :: 0 <= j < |v| && j != skip ==> v[j] <= v[i]
    decreases |v|
  {
    var n := |v| - 1;
    if n == skip then BestIndex(v[..n], skip)
    else if !HasOther(n, skip) then n
    else
      var i := BestIndex(v[..n], skip);
      if v[n] > v[i] then n else i
  }

  /** The peaks' histogram values, in the detector's order: histogram[indexes]. */
  function PeakValues(h: seq<int>, peaks: seq<nat>): (v: seq<int>)
    requires forall i :: 0 <= i < |peaks| ==> peaks[i] < |h|
    ensures |v| == |peaks|
  {
    seq(|peaks|, i requires 0 <= i < |peaks| => h[peaks[i]])
  }

  /** Peaks i and j are the first two of the peaks ranked by histogram value, largest
      first: i is a heaviest peak and j a heaviest of the others. */
  predicate TopTwo(h: seq<int>, peaks: seq<nat>, i: int, j: int)
    requires forall k :: 0 <= k < |peaks| ==> peaks[k] < |h|
  {
    0 <= i < |peaks| && 0 <= j < |peaks| && i != j &&
    (forall k :: 0 <= k < |peaks| ==> h[peaks[k]] <= h[peaks[i]]) &&
    (forall k :: 0 <= k < |peaks| && k != i ==> h[peaks[k]] <= h[peaks[j]])
  }

  /** findLinePositions: (0, 0) when the detector found fewer than two peaks, otherwise
      the columns of the two highest peaks, highest first. Ties are broken by the
      earlier index; the source leaves their order to an unstable sort. */
  function FindLinePositions(img: Grid, W: nat, peaks: seq<nat>): (r: (int, int))
    requires IsImage(img, W) && InColumns(peaks, W)
    ensures |peaks| < 2 ==> r == (0, 0)
    ensures |peaks| >= 2 ==>
      exists i, j :: TopTwo(Histogram(img, W), peaks, i, j) && r == (peaks[i] as int, peaks[j] as int)
  {
    if |peaks| < 2 then (0, 0)
    else
      var h := Histogram(img, W);
      var v := PeakValues(h, peaks);
      assert forall k :: 0 <= k < |peaks| ==> v[k] == h[peaks[k]];
      var first := BestIndex(v, -1);
      var second := BestIndex(v, first);
      assert TopTwo(h, peaks, first, second);
      (peaks[first], peaks[second])
  }

  /** With two peaks or more, both positions are columns of the image, the first is at
      least as high in the histogram as the second, and with distinct peaks (as the
      detector reports them) the two lines are found at different columns. */
  lemma PositionsInImage(img: Grid, W: nat, peaks: seq<nat>)
    requires IsImage(img, W) && InColumns(peaks, W) && |peaks| >= 2
    ensures var r := FindLinePositions(img, W, peaks);
      0 <= r.0 < W && 0 <= r.1 < W && Histogram(img, W)[r.0] >= Histogram(img, W)[r.1] &&
      ((forall a, b :: 0 <= a < b < |peaks| ==> peaks[a] != peaks[b]) ==> r.0 != r.1)
  {
    var r := FindLinePositions(img, W, peaks);
    var i, j :| TopTwo(Histogram(img, W), peaks, i, j) && r == (peaks[i] as int, peaks[j] as int);
    if i > j && peaks[i] == peaks[j] {
      assert !(forall a, b :: 0 <= a < b < |peaks| ==> peaks[a] != peaks[b]) by {
        assert 0 <= j < i < |peaks| && peaks[j] == peaks[i];
      }
    }
  }
}
