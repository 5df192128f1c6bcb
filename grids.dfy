/** The NumPy operations the lane finder relies on, stated over a row-major image:
    window sums (`np.sum` over a slice), the zero mask with one window copied in,
    `np.nonzero` (row-major enumeration of the non-zero cells), and the binary
    output of the adaptive threshold filter. */
module Grids {

  /** A single-channel image: g[r][c] is the pixel in row r (row 0 is the top) and column c. */
  type Grid = seq<seq<int>>

  /** g is a rectangular image of width W (its height is |g|). */
  predicate IsImage(g: Grid, W: nat)
  {
    forall r :: 0 <= r < |g| ==> |g[r]| == W
  }

  /** A pixel cloud: the x (column) and y (row) coordinates of pixels, in append order. */
  datatype Cloud = Cloud(xs: seq<int>, ys: seq<int>)
  {
    predicate Paired()
    {
      |xs| == |ys|
    }

    /** np.hstack on both coordinate arrays. */
    function Concat(other: Cloud): Cloud
    {
      Cloud(xs + other.xs, ys + other.ys)
    }
  }

  const NoPixels := Cloud([], [])

  /** Every pixel of p lies inside an H x W image. */
  predicate InImage(p: Cloud, H: nat, W: nat)
    requires p.Paired()
  {
    forall i :: 0 <= i < |p.xs| ==> 0 <= p.xs[i] < W && 0 <= p.ys[i] < H
  }

  /** No (x, y) pair occurs twice in p. */
  predicate Distinct(p: Cloud)
    requires p.Paired()
  {
    forall i, j :: 0 <= i < j < |p.xs| ==> p.xs[i] != p.xs[j] || p.ys[i] != p.ys[j]
  }

  /** Every pixel of p lies in rows [r0, r1) and columns [c0, c1) and is non-zero in g. */
  predicate InWindow(p: Cloud, g: Grid, r0: int, r1: int, c0: int, c1: int)
    requires p.Paired()
  {
    forall i :: 0 <= i < |p.xs| ==>
      r0 <= p.ys[i] < r1 && c0 <= p.xs[i] < c1 &&
      0 <= p.ys[i] < |g| && 0 <= p.xs[i] < |g[p.ys[i]]| && g[p.ys[i]][p.xs[i]] != 0
  }

  /** Pixel i of p comes before pixel j in row-major order. */
  predicate RowMajorBefore(p: Cloud, i: nat, j: nat)
    requires p.Paired() && i < |p.xs| && j < |p.xs|
  {
    p.ys[i] < p.ys[j] || (p.ys[i] == p.ys[j] && p.xs[i] < p.xs[j])
  }

  /** Every pixel of p comes before every later one in row-major order. */
  predicate RowMajor(p: Cloud)
    requires p.Paired()
  {
    forall i, j :: 0 <= i < j < |p.xs| ==> RowMajorBefore(p, i, j)
  }

  /** xs is strictly increasing. */
  predicate Increasing(xs: seq<int>)
  {
    forall i, j :: 0 <= i < j < |xs| ==> xs[i] < xs[j]
  }

  /** A slice bound as NumPy applies it: a stop index past the end is cut to the width. */
  function Clip(v: nat, W: nat): nat
  {
    if v < W then v else W
  }

  /** Sum of row[c0..c1). */
  function RowSum(row: seq<int>, c0: nat, c1: nat): (s: int)
    requires c0 <= c1 <= |row|
    decreases c1 - c0
  {
    if c0 == c1 then 0 else RowSum(row, c0, c1 - 1) + row[c1 - 1]
  }

  /** np.sum(g[r0:r1, c0:c1]). */
  function WindowSum(g: Grid, W: nat, r0: nat, r1: nat, c0: nat, c1: nat): (s: int)
    requires IsImage(g, W) && r0 <= r1 <= |g| && c0 <= c1 <= W
    decreases r1 - r0
  {
    if r0 == r1 then 0 else WindowSum(g, W, r0, r1 - 1, c0, c1) + RowSum(g[r1 - 1], c0, c1)
  }

  /** A row sum is never negative over non-negative pixels, and non-zero only when some
      pixel of the segment is. */
  lemma {:induction false} RowSumSigns(row: seq<int>, c0: nat, c1: nat)
    requires c0 <= c1 <= |row|
    ensures (forall c :: c0 <= c < c1 ==> row[c] >= 0) ==> RowSum(row, c0, c1) >= 0
    ensures RowSum(row, c0, c1) != 0 ==> exists c :: c0 <= c < c1 && row[c] != 0
    decreases c1 - c0
  {
    if c0 < c1 {
      RowSumSigns(row, c0, c1 - 1);
    }
  }

  /** A window sum is never negative over non-negative pixels, and non-zero only when the
      window holds a non-zero pixel. */
  lemma {:induction false} WindowSumSigns(g: Grid, W: nat, r0: nat, r1: nat, c0: nat, c1: nat)
    requires IsImage(g, W) && r0 <= r1 <= |g| && c0 <= c1 <= W
    ensures (forall r, c :: r0 <= r < r1 && c0 <= c < c1 ==> g[r][c] >= 0) ==> WindowSum(g, W, r0, r1, c0, c1) >= 0
    ensures WindowSum(g, W, r0, r1, c0, c1) != 0 ==> exists r, c :: r0 <= r < r1 && c0 <= c < c1 && g[r][c] != 0
    decreases r1 - r0
  {
    if r0 < r1 {
      WindowSumSigns(g, W, r0, r1 - 1, c0, c1);
      RowSumSigns(g[r1 - 1], c0, c1);
      if RowSum(g[r1 - 1], c0, c1) != 0 {
        var c :| c0 <= c < c1 && g[r1 - 1][c] != 0;
        assert r0 <= r1 - 1 < r1 && g[r1 - 1][c] != 0;
      }
    }
  }

  /** The decision of the external adaptive mean filter (3 x 3 neighbourhood, offset 0)
      for cell (r, c) of its 8-bit input. */
  type Marker = (Grid, int, int) -> bool

  /** Cell (r, c) of the 8-bit filter input s survives the filter: the filter keeps a cell
      only when it exceeds its neighbourhood mean, and that mean is never negative, so a
      zero cell never survives. */
  predicate Passes(s: Grid, mark: Marker, r: int, c: int)
  {
    0 <= r < |s| && 0 <= c < |s[r]| && s[r][c] != 0 && mark(s, r, c)
  }

  /** Which non-zero cells a listing keeps: all of them, or only those that survive the
      adaptive filter applied to the 8-bit image s. */
  datatype Filter = All | Survives(s: Grid, mark: Marker)

  predicate Keeps(f: Filter, r: int, c: int)
  {
    match f
    case All => true
    case Survives(s, mark) => Passes(s, mark, r, c)
  }

  /** The non-zero cells of row r within columns [c0, c1) that f keeps, left to right. */
  function RowNonZero(g: Grid, W: nat, r: nat, c0: nat, c1: nat, f: Filter): (p: Cloud)
    requires IsImage(g, W) && r < |g| && c0 <= c1 <= W
    ensures p.Paired()
    ensures forall i :: 0 <= i < |p.xs| ==>
      p.ys[i] == r && c0 <= p.xs[i] < c1 && g[r][p.xs[i]] != 0 && Keeps(f, r, p.xs[i])
    decreases c1 - c0
  {
    if c0 == c1 then NoPixels
    else
      var p := RowNonZero(g, W, r, c0, c1 - 1, f);
      if g[r][c1 - 1] != 0 && Keeps(f, r, c1 - 1) then Cloud(p.xs + [c1 - 1], p.ys + [r]) else p
  }

  /** A row's listing runs left to right. */
  lemma {:induction false} RowNonZeroIncreasing(g: Grid, W: nat, r: nat, c0: nat, c1: nat, f: Filter)
    requires IsImage(g, W) && r < |g| && c0 <= c1 <= W
    ensures Increasing(RowNonZero(g, W, r, c0, c1, f).xs)
    decreases c1 - c0
  {
    if c0 < c1 {
      var q := RowNonZero(g, W, r, c0, c1 - 1, f);
      RowNonZeroIncreasing(g, W, r, c0, c1 - 1, f);
      if g[r][c1 - 1] != 0 && Keeps(f, r, c1 - 1) {
        var xs := q.xs + [c1 - 1];
        assert RowNonZero(g, W, r, c0, c1, f).xs == xs;
        forall i, j | 0 <= i < j < |xs|
          ensures xs[i] < xs[j]
        {
          if j < |q.xs| {
            assert xs[i] == q.xs[i] && xs[j] == q.xs[j];
          } else {
            assert xs[i] == q.xs[i] < c1 - 1;
          }
        }
      }
    }
  }

  /** The non-zero cells of the rectangle rows [r0, r1) x columns [c0, c1) that f keeps,
      in row-major order. */
  function NonZeroIn(g: Grid, W: nat, r0: nat, r1: nat, c0: nat, c1: nat, f: Filter): (p: Cloud)
    requires IsImage(g, W) && r0 <= r1 <= |g| && c0 <= c1 <= W
    ensures p.Paired()
    ensures forall i :: 0 <= i < |p.xs| ==>
      r0 <= p.ys[i] < r1 && c0 <= p.xs[i] < c1 && g[p.ys[i]][p.xs[i]] != 0 && Keeps(f, p.ys[i], p.xs[i])
    decreases r1 - r0
  {
    if r0 == r1 then NoPixels
    else NonZeroIn(g, W, r0, r1 - 1, c0, c1, f).Concat(RowNonZero(g, W, r1 - 1, c0, c1, f))
  }

  /** The listing of a rectangle is in row-major order. */
  lemma {:induction false} NonZeroInOrdered(g: Grid, W: nat, r0: nat, r1: nat, c0: nat, c1: nat, f: Filter)
    requires IsImage(g, W) && r0 <= r1 <= |g| && c0 <= c1 <= W
    ensures RowMajor(NonZeroIn(g, W, r0, r1, c0, c1, f))
    decreases r1 - r0
  {
    if r0 < r1 {
      var front := NonZeroIn(g, W, r0, r1 - 1, c0, c1, f);
      var row := RowNonZero(g, W, r1 - 1, c0, c1, f);
      NonZeroInOrdered(g, W, r0, r1 - 1, c0, c1, f);
      assert forall i :: 0 <= i < |front.xs| ==> front.ys[i] < r1 - 1;
      assert forall i :: 0 <= i < |row.xs| ==> row.ys[i] == r1 - 1;
      RowNonZeroIncreasing(g, W, r1 - 1, c0, c1, f);
      ConcatRowMajor(front, row, r1 - 1);
    }
  }

  /** Appending one row's listing after the listing of the rows above it keeps row-major order. */
  lemma ConcatRowMajor(a: Cloud, b: Cloud, r: int)
    requires a.Paired() && b.Paired()
    requires RowMajor(a)
    requires forall i :: 0 <= i < |a.xs| ==> a.ys[i] < r
    requires forall i :: 0 <= i < |b.xs| ==> b.ys[i] == r
    requires Increasing(b.xs)
    ensures RowMajor(a.Concat(b))
  {
    var p := a.Concat(b);
    forall i, j | 0 <= i < j < |p.xs|
      ensures RowMajorBefore(p, i, j)
    {
      var n := |a.xs|;
      if j < n {
        assert RowMajorBefore(a, i, j);
      } else if i < n {
        assert p.ys[i] == a.ys[i] && p.ys[j] == b.ys[j - n];
      } else {
        assert b.xs[i - n] < b.xs[j - n];
      }
    }
  }

  /** np.nonzero(g): every non-zero cell of the image, in row-major order. */
  function NonZero(g: Grid, W: nat): (p: Cloud)
    requires IsImage(g, W)
    ensures p.Paired() && InImage(p, |g|, W)
  {
    NonZeroIn(g, W, 0, |g|, 0, W, All)
  }

  /** A row-major listing lists no cell twice. */
  lemma RowMajorDistinct(p: Cloud)
    requires p.Paired() && RowMajor(p)
    ensures Distinct(p)
  {
    forall i, j | 0 <= i < j < |p.xs|
      ensures p.xs[i] != p.xs[j] || p.ys[i] != p.ys[j]
    {
      assert RowMajorBefore(p, i, j);
    }
  }

  /** np.nonzero lists no cell twice. */
  lemma NonZeroDistinct(g: Grid, W: nat)
    requires IsImage(g, W)
    ensures Distinct(NonZero(g, W))
  {
    NonZeroInOrdered(g, W, 0, |g|, 0, W, All);
    RowMajorDistinct(NonZero(g, W));
  }

  /** Pixel (x, y) occurs in p. */
  predicate Lists(p: Cloud, x: int, y: int)
    requires p.Paired()
  {
    exists i :: 0 <= i < |p.xs| && p.xs[i] == x && p.ys[i] == y
  }

  /** Every non-zero cell of the row segment that f keeps is listed. */
  lemma {:induction false} RowNonZeroComplete(g: Grid, W: nat, r: nat, c0: nat, c1: nat, f: Filter, x: nat)
    requires IsImage(g, W) && r < |g| && c0 <= x < c1 <= W && g[r][x] != 0 && Keeps(f, r, x)
    ensures Lists(RowNonZero(g, W, r, c0, c1, f), x, r)
    decreases c1 - c0
  {
    var p := RowNonZero(g, W, r, c0, c1, f);
    var q := RowNonZero(g, W, r, c0, c1 - 1, f);
    if x == c1 - 1 {
      assert p == Cloud(q.xs + [x], q.ys + [r]);
      assert p.xs[|q.xs|] == x && p.ys[|q.xs|] == r;
    } else {
      RowNonZeroComplete(g, W, r, c0, c1 - 1, f, x);
      var i :| 0 <= i < |q.xs| && q.xs[i] == x && q.ys[i] == r;
      if g[r][c1 - 1] != 0 && Keeps(f, r, c1 - 1) {
        assert p == Cloud(q.xs + [c1 - 1], q.ys + [r]);
        assert p.xs[i] == x && p.ys[i] == r;
      } else {
        assert p == q;
      }
    }
  }

  /** A pixel listed in either part is listed in their concatenation. */
  lemma ListsConcat(a: Cloud, b: Cloud, x: int, y: int)
    requires a.Paired() && b.Paired() && (Lists(a, x, y) || Lists(b, x, y))
    ensures Lists(a.Concat(b), x, y)
  {
    var p := a.Concat(b);
    if Lists(a, x, y) {
      var i :| 0 <= i < |a.xs| && a.xs[i] == x && a.ys[i] == y;
      assert p.xs[i] == x && p.ys[i] == y;
    } else {
      var i :| 0 <= i < |b.xs| && b.xs[i] == x && b.ys[i] == y;
      assert p.xs[|a.xs| + i] == x && p.ys[|a.xs| + i] == y;
    }
  }

  /** Every non-zero cell of the rectangle that f keeps is listed: with the contract of
      NonZeroIn, the result is exactly those cells, each once, in row-major order. */
  lemma {:induction false} NonZeroInComplete(g: Grid, W: nat, r0: nat, r1: nat, c0: nat, c1: nat, f: Filter,
                                             y: nat, x: nat)
    requires IsImage(g, W) && r0 <= y < r1 <= |g| && c0 <= x < c1 <= W && g[y][x] != 0 && Keeps(f, y, x)
    ensures Lists(NonZeroIn(g, W, r0, r1, c0, c1, f), x, y)
    decreases r1 - r0
  {
    var front := NonZeroIn(g, W, r0, r1 - 1, c0, c1, f);
    var row := RowNonZero(g, W, r1 - 1, c0, c1, f);
    if y == r1 - 1 {
      RowNonZeroComplete(g, W, y, c0, c1, f, x);
    } else {
      NonZeroInComplete(g, W, r0, r1 - 1, c0, c1, f, y, x);
    }
    ListsConcat(front, row, x, y);
  }

  /** Splitting a row segment at m splits its listing. */
  lemma {:induction false} RowNonZeroSplit(g: Grid, W: nat, r: nat, c0: nat, m: nat, c1: nat, f: Filter)
    requires IsImage(g, W) && r < |g| && c0 <= m <= c1 <= W
    ensures RowNonZero(g, W, r, c0, c1, f) == RowNonZero(g, W, r, c0, m, f).Concat(RowNonZero(g, W, r, m, c1, f))
    decreases c1 - m
  {
    if m < c1 {
      RowNonZeroSplit(g, W, r, c0, m, c1 - 1, f);
      var a := RowNonZero(g, W, r, c0, m, f);
      var b := RowNonZero(g, W, r, m, c1 - 1, f);
      assert a.xs + (b.xs + [c1 - 1]) == (a.xs + b.xs) + [c1 - 1];
      assert a.ys + (b.ys + [r]) == (a.ys + b.ys) + [r];
    }
  }

  /** Two images and filters that keep the same cells of a row segment list the same
      cells there. */
  lemma {:induction false} RowNonZeroAgree(g: Grid, f: Filter, h: Grid, e: Filter, W: nat, r: nat, c0: nat, c1: nat)
    requires IsImage(g, W) && IsImage(h, W) && r < |g| && r < |h| && c0 <= c1 <= W
    requires forall c :: c0 <= c < c1 ==> (g[r][c] != 0 && Keeps(f, r, c)) == (h[r][c] != 0 && Keeps(e, r, c))
    ensures RowNonZero(g, W, r, c0, c1, f) == RowNonZero(h, W, r, c0, c1, e)
    decreases c1 - c0
  {
    if c0 < c1 {
      RowNonZeroAgree(g, f, h, e, W, r, c0, c1 - 1);
    }
  }

  /** Two images and filters that keep the same cells of a rectangle list the same cells
      there. */
  lemma {:induction false} NonZeroInAgree(g: Grid, f: Filter, h: Grid, e: Filter, W: nat,
                                          r0: nat, r1: nat, c0: nat, c1: nat)
    requires IsImage(g, W) && IsImage(h, W) && r0 <= r1 <= |g| && r1 <= |h| && c0 <= c1 <= W
    requires forall r, c :: r0 <= r < r1 && c0 <= c < c1 ==>
      (g[r][c] != 0 && Keeps(f, r, c)) == (h[r][c] != 0 && Keeps(e, r, c))
    ensures NonZeroIn(g, W, r0, r1, c0, c1, f) == NonZeroIn(h, W, r0, r1, c0, c1, e)
    decreases r1 - r0
  {
    if r0 < r1 {
      NonZeroInAgree(g, f, h, e, W, r0, r1 - 1, c0, c1);
      RowNonZeroAgree(g, f, h, e, W, r1 - 1, c0, c1);
    }
  }

  /** A row segment of zeros lists nothing. */
  lemma {:induction false} RowNonZeroOfZeros(g: Grid, W: nat, r: nat, c0: nat, c1: nat)
    requires IsImage(g, W) && r < |g| && c0 <= c1 <= W
    requires forall c :: c0 <= c < c1 ==> g[r][c] == 0
    ensures RowNonZero(g, W, r, c0, c1, All) == NoPixels
    decreases c1 - c0
  {
    if c0 < c1 {
      RowNonZeroOfZeros(g, W, r, c0, c1 - 1);
    }
  }

  /** A block of zero rows lists nothing. */
  lemma {:induction false} NonZeroInOfZeros(g: Grid, W: nat, r0: nat, r1: nat, c0: nat, c1: nat)
    requires IsImage(g, W) && r0 <= r1 <= |g| && c0 <= c1 <= W
    requires forall r, c :: r0 <= r < r1 && c0 <= c < c1 ==> g[r][c] == 0
    ensures NonZeroIn(g, W, r0, r1, c0, c1, All) == NoPixels
    decreases r1 - r0
  {
    if r0 < r1 {
      NonZeroInOfZeros(g, W, r0, r1 - 1, c0, c1);
      RowNonZeroOfZeros(g, W, r1 - 1, c0, c1);
    }
  }

  /** Splitting the rows of a rectangle at m splits its listing. */
  lemma {:induction false} NonZeroInSplit(g: Grid, W: nat, r0: nat, m: nat, r1: nat, c0: nat, c1: nat, f: Filter)
    requires IsImage(g, W) && r0 <= m <= r1 <= |g| && c0 <= c1 <= W
    ensures NonZeroIn(g, W, r0, r1, c0, c1, f) ==
      NonZeroIn(g, W, r0, m, c0, c1, f).Concat(NonZeroIn(g, W, m, r1, c0, c1, f))
    decreases r1 - m
  {
    if m < r1 {
      NonZeroInSplit(g, W, r0, m, r1 - 1, c0, c1, f);
      var a := NonZeroIn(g, W, r0, m, c0, c1, f);
      var b := NonZeroIn(g, W, m, r1 - 1, c0, c1, f);
      var c := RowNonZero(g, W, r1 - 1, c0, c1, f);
      assert NonZeroIn(g, W, r0, r1, c0, c1, f) == NonZeroIn(g, W, r0, r1 - 1, c0, c1, f).Concat(c);
      assert NonZeroIn(g, W, m, r1, c0, c1, f) == b.Concat(c);
      ConcatAssoc(a, b, c);
    }
  }

  lemma ConcatAssoc(a: Cloud, b: Cloud, c: Cloud)
    ensures a.Concat(b.Concat(c)) == a.Concat(b).Concat(c)
  {
    assert a.xs + (b.xs + c.xs) == (a.xs + b.xs) + c.xs;
    assert a.ys + (b.ys + c.ys) == (a.ys + b.ys) + c.ys;
  }

  /** np.zeros_like(img) with img[top:bot, c0:c1] copied in. */
  function Mask(img: Grid, W: nat, top: nat, bot: nat, c0: nat, c1: nat): (m: Grid)
    requires IsImage(img, W)
    ensures |m| == |img| && IsImage(m, W)
  {
    seq(|img|, r requires 0 <= r < |img| =>
      seq(W, c requires 0 <= c < W => if top <= r < bot && c0 <= c < c1 then img[r][c] else 0))
  }

  /** np.max(g) == 1 for a non-empty image. */
  predicate MaxIsOne(g: Grid)
  {
    (exists r, c | 0 <= r < |g| && 0 <= c < |g[r]| :: g[r][c] == 1) &&
    (forall r, c | 0 <= r < |g| && 0 <= c < |g[r]| :: g[r][c] <= 1)
  }

  /** The window rows [top, bot) x columns [c0, c1) of g holds a 1 and nothing above 1. */
  predicate WindowMaxIsOne(g: Grid, top: nat, bot: nat, c0: nat, c1: nat)
  {
    (exists r, c | top <= r < bot && c0 <= c < c1 && r < |g| && c < |g[r]| :: g[r][c] == 1) &&
    (forall r, c | top <= r < bot && c0 <= c < c1 && r < |g| && c < |g[r]| :: g[r][c] <= 1)
  }

  /** The mask's maximum is 1 exactly when the copied window's maximum is 1: the cells
      outside the window are 0, which neither reaches nor exceeds 1. */
  lemma MaskMaxIsOne(img: Grid, W: nat, top: nat, bot: nat, c0: nat, c1: nat)
    requires IsImage(img, W) && top <= bot <= |img| && c0 <= c1 <= W
    ensures MaxIsOne(Mask(img, W, top, bot, c0, c1)) <==> WindowMaxIsOne(img, top, bot, c0, c1)
  {
    var m := Mask(img, W, top, bot, c0, c1);
    if MaxIsOne(m) {
      var r, c :| 0 <= r < |m| && 0 <= c < |m[r]| && m[r][c] == 1;
      assert top <= r < bot && c0 <= c < c1 && img[r][c] == 1;
      forall r', c' | top <= r' < bot && c0 <= c' < c1 && r' < |img| && c' < |img[r']|
        ensures img[r'][c'] <= 1
      {
        assert m[r'][c'] == img[r'][c'];
      }
    }
    if WindowMaxIsOne(img, top, bot, c0, c1) {
      var r, c :| top <= r < bot && c0 <= c < c1 && r < |img| && c < |img[r]| && img[r][c] == 1;
      assert m[r][c] == 1;
      forall r', c' | 0 <= r' < |m| && 0 <= c' < |m[r']|
        ensures m[r'][c'] <= 1
      {
        if top <= r' < bot && c0 <= c' < c1 {
          assert m[r'][c'] == img[r'][c'];
        }
      }
    }
  }

  /** np.array(g * 255, dtype=np.uint8): scale and wrap to 8 bits. */
  function Scale255(g: Grid, W: nat): (s: Grid)
    requires IsImage(g, W)
    ensures |s| == |g| && IsImage(s, W)
  {
    seq(|g|, r requires 0 <= r < |g| =>
      seq(W, c requires 0 <= c < W => (g[r][c] * 255) % 256))
  }

  /** cv2.adaptiveThreshold(Scale255(m), 255, MEAN_C, THRESH_BINARY, 3, 0): a binary image
      of the same size, 255 exactly where the cell survives the filter. */
  function AdaptiveThreshold(m: Grid, W: nat, mark: Marker): (t: Grid)
    requires IsImage(m, W)
    ensures |t| == |m| && IsImage(t, W)
    ensures forall r, c :: 0 <= r < |t| && 0 <= c < W ==>
      (t[r][c] != 0 <==> Passes(Scale255(m, W), mark, r, c))
  {
    var s := Scale255(m, W);
    seq(|m|, r requires 0 <= r < |m| =>
      seq(W, c requires 0 <= c < W => if Passes(s, mark, r, c) then 255 else 0))
  }

  /** The listing of a mask is exactly the listing of the image's non-zero cells inside
      the copied window. */
  lemma MaskNonZero(img: Grid, W: nat, top: nat, bot: nat, c0: nat, c1: nat)
    requires IsImage(img, W) && top <= bot <= |img| && c0 <= c1 <= W
    ensures NonZero(Mask(img, W, top, bot, c0, c1), W) == NonZeroIn(img, W, top, bot, c0, c1, All)
  {
    var m := Mask(img, W, top, bot, c0, c1);
    WindowOnly(m, W, top, bot, c0, c1);
    NonZeroInAgree(m, All, img, All, W, top, bot, c0, c1);
  }

  /** The listing of the thresholded mask is the image's non-zero cells inside the copied
      window that survive the filter, in row-major order. */
  lemma ThresholdNonZero(img: Grid, W: nat, top: nat, bot: nat, c0: nat, c1: nat, mark: Marker)
    requires IsImage(img, W) && top <= bot <= |img| && c0 <= c1 <= W
    ensures var m := Mask(img, W, top, bot, c0, c1);
      NonZero(AdaptiveThreshold(m, W, mark), W) == NonZeroIn(img, W, top, bot, c0, c1, Survives(Scale255(m, W), mark))
  {
    var m := Mask(img, W, top, bot, c0, c1);
    var s := Scale255(m, W);
    var t := AdaptiveThreshold(m, W, mark);
    forall r, c | 0 <= r < |t| && 0 <= c < W
      ensures (t[r][c] != 0) == (top <= r < bot && c0 <= c < c1 && img[r][c] != 0 && Passes(s, mark, r, c))
    {
      assert s[r][c] == (m[r][c] * 255) % 256;
    }
    WindowOnly(t, W, top, bot, c0, c1);
    NonZeroInAgree(t, All, img, Survives(s, mark), W, top, bot, c0, c1);
  }

  /** An image that is zero outside a window lists only its cells inside the window. */
  lemma WindowOnly(m: Grid, W: nat, top: nat, bot: nat, c0: nat, c1: nat)
    requires IsImage(m, W) && top <= bot <= |m| && c0 <= c1 <= W
    requires forall r, c :: 0 <= r < |m| && 0 <= c < W && !(top <= r < bot && c0 <= c < c1) ==> m[r][c] == 0
    ensures NonZero(m, W) == NonZeroIn(m, W, top, bot, c0, c1, All)
  {
    var H := |m|;
    NonZeroInSplit(m, W, 0, top, H, 0, W, All);
    NonZeroInSplit(m, W, top, bot, H, 0, W, All);
    NonZeroInOfZeros(m, W, 0, top, 0, W);
    NonZeroInOfZeros(m, W, bot, H, 0, W);
    WindowRows(m, W, top, bot, c0, c1, bot);
    var inside := NonZeroIn(m, W, top, bot, c0, c1, All);
    assert NonZeroIn(m, W, 0, H, 0, W, All) == NoPixels.Concat(inside.Concat(NoPixels));
    assert inside.xs + [] == inside.xs && inside.ys + [] == inside.ys;
  }

  /** Inside the window rows, m lists only its cells within the window columns. */
  lemma {:induction false} WindowRows(m: Grid, W: nat, top: nat, bot: nat, c0: nat, c1: nat, k: nat)
    requires IsImage(m, W) && top <= k <= bot <= |m| && c0 <= c1 <= W
    requires forall r, c :: 0 <= r < |m| && 0 <= c < W && !(top <= r < bot && c0 <= c < c1) ==> m[r][c] == 0
    ensures NonZeroIn(m, W, top, k, 0, W, All) == NonZeroIn(m, W, top, k, c0, c1, All)
    decreases k - top
  {
    if top < k {
      WindowRows(m, W, top, bot, c0, c1, k - 1);
      WindowRow(m, W, c0, c1, k - 1);
    }
  }

  /** A row that is zero outside columns [c0, c1) lists only its cells within them. */
  lemma WindowRow(m: Grid, W: nat, c0: nat, c1: nat, r: nat)
    requires IsImage(m, W) && r < |m| && c0 <= c1 <= W
    requires forall c :: 0 <= c < W && !(c0 <= c < c1) ==> m[r][c] == 0
    ensures RowNonZero(m, W, r, 0, W, All) == RowNonZero(m, W, r, c0, c1, All)
  {
    RowNonZeroSplit(m, W, r, 0, c0, W, All);
    RowNonZeroSplit(m, W, r, c0, c1, W, All);
    RowNonZeroOfZeros(m, W, r, 0, c0);
    RowNonZeroOfZeros(m, W, r, c1, W);
    var mid := RowNonZero(m, W, r, c0, c1, All);
    assert RowNonZero(m, W, r, 0, W, All) == NoPixels.Concat(mid.Concat(NoPixels));
    assert mid.xs + [] == mid.xs && mid.ys + [] == mid.ys;
  }

  /** Two images of width W with the same cells are equal. */
  lemma SameGrid(a: Grid, b: Grid, W: nat)
    requires IsImage(a, W) && IsImage(b, W) && |a| == |b|
    requires forall r, c :: 0 <= r < |a| && 0 <= c < W ==> a[r][c] == b[r][c]
    ensures a == b
  {
    forall r | 0 <= r < |a|
      ensures a[r] == b[r]
    {
      assert forall c :: 0 <= c < W ==> a[r][c] == b[r][c];
    }
  }
}
