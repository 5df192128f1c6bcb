/** The sliding-window tracker (findLinePixels): the image is cut into horizontal bands
    of `windowHeight` rows, from the bottom up; in each band a row of candidate windows
    around the current centre is scored by pixel mass, the heaviest one wins, the centre
    follows it when it holds more than 10, and the non-zero pixels of the winning window
    are appended to the lane's pixel cloud. */
module Tracker {
  import opened Grids

  /** The tuning parameters of findLinePixels (defaults 100, 20, 10, 2). */
  datatype Config = Config(windowWidth: nat, windowHeight: nat, searchStep: nat, numWindows: nat)
  {
    /** Both range() steps are non-zero and the search space holds at least one window. */
    predicate Valid()
    {
      windowWidth > 0 && windowHeight > 0 && searchStep > 0 && numWindows > 0
    }

    /** Width of the search space: numWindows side-by-side windows. */
    function Span(): nat
    {
      numWindows * windowWidth
    }
  }

  /** The search space is at least one window wide. */
  lemma SpanCoversWindow(cfg: Config)
    requires cfg.Valid()
    ensures cfg.windowWidth <= cfg.Span()
  {
    assert cfg.Span() == (cfg.numWindows - 1) * cfg.windowWidth + cfg.windowWidth;
  }

  const DefaultConfig := Config(100, 20, 10, 2)

  /** What findLinePixels demands of its caller: a rectangular image, usable steps and, as
      soon as there is a band to search, an image wider than the search space (the source
      asserts this and aborts otherwise). */
  predicate Fits(img: Grid, W: nat, cfg: Config)
  {
    IsImage(img, W) && cfg.Valid() && (|img| > 0 ==> W > cfg.Span())
  }

  /** The values of range(y, 0, -wh): the bottom row bound of each band, bottom band first. */
  function BandBottoms(y: int, wh: nat): (s: seq<nat>)
    requires wh > 0
    ensures forall i :: 0 <= i < |s| ==> 0 < s[i] <= y
    ensures |s| > 0 ==> s[0] == y && s[|s| - 1] <= wh
    ensures |s| == 0 <==> y <= 0
    decreases y
  {
    if y <= 0 then [] else [y] + BandBottoms(y - wh, wh)
  }

  function Bands(img: Grid, cfg: Config): seq<nat>
    requires cfg.Valid()
  {
    BandBottoms(|img|, cfg.windowHeight)
  }

  /** The top row of the band whose bottom bound is y: a band is at most wh rows tall,
      and shorter only when it reaches row 0 (the window height shrinks to the rows that
      remain in the top band). */
  function Top(y: nat, wh: nat): (t: nat)
    ensures t <= y && y - t <= wh
    ensures t > 0 ==> y - t == wh
  {
    if y < wh then 0 else y - wh
  }

  /** The clamped left edge x_pos of the search space around a centre: a column from
      which a whole window fits in the image, and either the whole search space fits or
      x_pos is centre - windowWidth with a window's width to spare on the right of the
      centre. */
  function Origin(center: int, W: nat, cfg: Config): (o: nat)
    requires cfg.Valid() && W > cfg.Span()
    ensures o + cfg.windowWidth <= W
    ensures o + cfg.Span() <= W || (o == center - cfg.windowWidth && center + cfg.windowWidth <= W)
  {
    if center - cfg.windowWidth < 0 then 0
    else if center + cfg.windowWidth > W then
      assert cfg.windowWidth <= cfg.Span() by { SpanCoversWindow(cfg); }
      W - cfg.Span()
    else center - cfg.windowWidth
  }

  /** The values of range(b, limit, step). */
  function CandidateStarts(b: nat, limit: int, step: nat): seq<nat>
    requires step > 0
    decreases limit - b
  {
    if b >= limit then [] else [b] + CandidateStarts(b + step, limit, step)
  }

  /** Left edges of the candidate windows searched around a centre. */
  function Candidates(center: int, W: nat, cfg: Config): seq<nat>
    requires cfg.Valid() && W > cfg.Span()
  {
    var o := Origin(center, W, cfg);
    CandidateStarts(o, o + cfg.Span(), cfg.searchStep)
  }

  /** Pixel mass of the candidate window with left edge b in the band with bottom bound y;
      columns past the right edge of the image are cut off, as NumPy slicing does. */
  function CandidateSum(img: Grid, W: nat, cfg: Config, y: nat, b: nat): int
    requires IsImage(img, W) && cfg.Valid() && y <= |img|
  {
    WindowSum(img, W, Top(y, cfg.windowHeight), y, Clip(b, W), Clip(b + cfg.windowWidth, W))
  }

  /** col is a candidate of the band around center, and no candidate is heavier. Ties are
      left open: the source breaks them by an unstable sort. */
  ghost predicate IsBest(img: Grid, W: nat, cfg: Config, y: nat, center: int, col: nat)
    requires Fits(img, W, cfg) && 0 < y <= |img|
  {
    var cs := Candidates(center, W, cfg);
    col in cs && forall b :: b in cs ==> CandidateSum(img, W, cfg, y, b) <= CandidateSum(img, W, cfg, y, col)
  }

  /** The centre for the next band up: the middle of the winning window when it holds
      more than 10, the old centre otherwise; a centre that moves lies inside the winning
      window. */
  function NextCenter(img: Grid, W: nat, cfg: Config, y: nat, center: int, col: nat): (c: int)
    requires IsImage(img, W) && cfg.Valid() && y <= |img|
    ensures c != center ==> col <= c <= col + cfg.windowWidth && CandidateSum(img, W, cfg, y, col) > 10
  {
    if CandidateSum(img, W, cfg, y, col) > 10 then col + cfg.windowWidth / 2 else center
  }

  /** The centre only moves for a window that actually holds pixels: a mass above 10
      needs a non-zero pixel inside the window. */
  lemma RecenterOnPixels(img: Grid, W: nat, cfg: Config, y: nat, center: int, col: nat)
    requires IsImage(img, W) && cfg.Valid() && y <= |img|
    requires NextCenter(img, W, cfg, y, center, col) != center
    ensures exists r, x :: Top(y, cfg.windowHeight) <= r < y && Clip(col, W) <= x < Clip(col + cfg.windowWidth, W) && img[r][x] != 0
  {
    WindowSumSigns(img, W, Top(y, cfg.windowHeight), y, Clip(col, W), Clip(col + cfg.windowWidth, W));
  }

  /** The pixels a band contributes (see WindowCloud). */
  function BandCloud(img: Grid, W: nat, cfg: Config, mark: Marker, y: nat, col: nat): (p: Cloud)
    requires IsImage(img, W) && cfg.Valid() && y <= |img|
    ensures p.Paired()
  {
    WindowCloud(img, W, Top(y, cfg.windowHeight), y, Clip(col, W), Clip(col + cfg.windowWidth, W), mark)
  }

  /** What np.nonzero reports for the zero mask holding img[top:bot, c0:c1]: the image's
      non-zero pixels inside the window, in row-major order; when the mask's maximum is
      exactly 1 the mask is first re-binarised, which keeps only the pixels that survive
      the adaptive filter. WindowPixels computes it the way the source does. */
  function WindowCloud(img: Grid, W: nat, top: nat, bot: nat, c0: nat, c1: nat, mark: Marker): (p: Cloud)
    requires IsImage(img, W) && top <= bot <= |img| && c0 <= c1 <= W
    ensures p.Paired()
  {
    NonZeroIn(img, W, top, bot, c0, c1, WindowFilter(img, W, top, bot, c0, c1, mark))
  }

  /** The filter np.nonzero sees through: the adaptive threshold of the scaled mask when
      the window's maximum is exactly 1, none otherwise. */
  function WindowFilter(img: Grid, W: nat, top: nat, bot: nat, c0: nat, c1: nat, mark: Marker): Filter
    requires IsImage(img, W)
  {
    if WindowMaxIsOne(img, top, bot, c0, c1) then Survives(Scale255(Mask(img, W, top, bot, c0, c1), W), mark) else All
  }

  /** The centre after the bands won by wins, starting from start. */
  function CenterAfter(img: Grid, W: nat, cfg: Config, start: int, wins: seq<nat>): int
    requires Fits(img, W, cfg) && |wins| <= |Bands(img, cfg)|
    decreases |wins|
  {
    if wins == [] then start
    else
      var k := |wins| - 1;
      NextCenter(img, W, cfg, Bands(img, cfg)[k], CenterAfter(img, W, cfg, start, wins[..k]), wins[k])
  }

  /** Each wins[k] is a heaviest candidate of band k, searched around the centre the
      earlier bands left behind. */
  ghost predicate Chosen(img: Grid, W: nat, cfg: Config, start: int, wins: seq<nat>)
    requires Fits(img, W, cfg) && |wins| <= |Bands(img, cfg)|
    decreases |wins|
  {
    wins == [] ||
    var k := |wins| - 1;
    Chosen(img, W, cfg, start, wins[..k]) &&
    IsBest(img, W, cfg, Bands(img, cfg)[k], CenterAfter(img, W, cfg, start, wins[..k]), wins[k])
  }

  /** The pixel cloud after the bands won by wins: their band clouds, bottom band first. */
  function Collected(img: Grid, W: nat, cfg: Config, mark: Marker, wins: seq<nat>): (c: Cloud)
    requires Fits(img, W, cfg) && |wins| <= |Bands(img, cfg)|
    ensures c.Paired()
    decreases |wins|
  {
    if wins == [] then NoPixels
    else
      var k := |wins| - 1;
      Collected(img, W, cfg, mark, wins[..k]).Concat(BandCloud(img, W, cfg, mark, Bands(img, cfg)[k], wins[k]))
  }

  /** The contents of a 2-D array as an image. */
  function Snapshot(a: array2<int>): (g: Grid)
    reads a
    ensures |g| == a.Length0 && IsImage(g, a.Length1)
    ensures forall r, c :: 0 <= r < a.Length0 && 0 <= c < a.Length1 ==> g[r][c] == a[r, c]
  {
    seq(a.Length0, r requires 0 <= r < a.Length0 reads a =>
      seq(a.Length1, c requires 0 <= c < a.Length1 reads a => a[r, c]))
  }

  /** A non-empty sequence has an index holding its maximum. */
  lemma {:induction false} MaxExists(s: seq<int>)
    requires |s| > 0
    ensures exists k :: 0 <= k < |s| && forall j :: 0 <= j < |s| ==> s[j] <= s[k]
  {
    if |s| > 1 {
      var t := s[..|s| - 1];
      MaxExists(t);
      var k :| 0 <= k < |t| && forall j :: 0 <= j < |t| ==> t[j] <= t[k];
      if s[|s| - 1] > s[k] {
        assert forall j :: 0 <= j < |s| ==> s[j] <= s[|s| - 1];
      } else {
        assert forall j :: 0 <= j < |s| ==> s[j] <= s[k];
      }
    } else {
      assert forall j :: 0 <= j < |s| ==> s[j] <= s[0];
    }
  }

  /** findLinePixels: track one lane line from the bottom band to the top, starting at
      initialXCenter. wins records the winning window of each band. */
  method FindLinePixels(img: Grid, W: nat, initialXCenter: int, cfg: Config, mark: Marker)
    returns (xs: seq<int>, ys: seq<int>, ghost wins: seq<nat>)
    requires Fits(img, W, cfg)
    ensures |wins| == |Bands(img, cfg)|
    ensures Chosen(img, W, cfg, initialXCenter, wins)
    ensures Cloud(xs, ys) == Collected(img, W, cfg, mark, wins)
    ensures |xs| == |ys| && InImage(Cloud(xs, ys), |img|, W) && Distinct(Cloud(xs, ys))
    ensures forall i :: 0 <= i < |xs| ==> FromWonWindow(img, W, cfg, wins, xs[i], ys[i])
  {
    var H := |img|;
    var windowHeight := cfg.windowHeight;
    var center := initialXCenter;
    xs, ys, wins := [], [], [];
    ghost var bands := Bands(img, cfg);
    var yStart: int := H;
    while yStart > 0
      invariant |wins| <= |bands|
      invariant |wins| < |bands| <==> yStart > 0
      invariant |wins| < |bands| ==> yStart == bands[|wins|]
      invariant yStart > 0 ==> windowHeight == cfg.windowHeight
      invariant center == CenterAfter(img, W, cfg, initialXCenter, wins)
      invariant Chosen(img, W, cfg, initialXCenter, wins)
      invariant Cloud(xs, ys) == Collected(img, W, cfg, mark, wins)
      decreases yStart
    {
      var y: nat := yStart;
      BandsAdvance(H, cfg.windowHeight, |wins|);
      var col, found, next;
      col, found, next, windowHeight := SearchBand(img, W, cfg, mark, y, center, windowHeight);
      ExtendChosen(img, W, cfg, initialXCenter, wins, col);
      ExtendCenter(img, W, cfg, initialXCenter, wins, col);
      ExtendCollected(img, W, cfg, mark, wins, col);
      center := next;
      xs := xs + found.xs;
      ys := ys + found.ys;
      wins := wins + [col];
      yStart := yStart - cfg.windowHeight;
    }
    CollectedFacts(img, W, cfg, mark, wins);
    forall i | 0 <= i < |xs|
      ensures FromWonWindow(img, W, cfg, wins, xs[i], ys[i])
    {
      CollectedOnPixels(img, W, cfg, mark, wins, i);
    }
  }

  /** One pass of the outer loop of findLinePixels, for the band with bottom bound y:
      the search origin around the centre, the scores of the candidates, a heaviest
      candidate, the centre update and the pixels of the winning window. */
  method SearchBand(img: Grid, W: nat, cfg: Config, mark: Marker, y: nat, center: int, windowHeight: nat)
    returns (col: nat, found: Cloud, next: int, height: nat)
    requires Fits(img, W, cfg) && 0 < y <= |img| && windowHeight == cfg.windowHeight
    ensures IsBest(img, W, cfg, y, center, col)
    ensures next == if CandidateSum(img, W, cfg, y, col) > 10 then col + cfg.windowWidth / 2 else center
    ensures found == BandCloud(img, W, cfg, mark, y, col)
    ensures height == y - Top(y, cfg.windowHeight)
  {
    // the search origin, clamped to the image
    var xPos: nat;
    if center - cfg.windowWidth < 0 {
      xPos := 0;
    } else if center + cfg.windowWidth > W {
      xPos := W - cfg.numWindows * cfg.windowWidth;
    } else {
      xPos := center - cfg.windowWidth;
    }
    assert xPos == Origin(center, W, cfg);

    var starts, sums;
    starts, sums, height := ScoreCandidates(img, W, cfg, y, xPos, windowHeight);

    // the heaviest candidate; which one among equals is left open
    MaxExists(sums);
    var best :| 0 <= best < |sums| && forall j :: 0 <= j < |sums| ==> sums[j] <= sums[best];
    col := starts[best];
    BestOfSums(img, W, cfg, y, center, starts, sums, best);
    next := center;
    if sums[best] > 10 {
      next := col + cfg.windowWidth / 2;
    }

    found := BandPixels(img, W, cfg, mark, y, col, height);
  }

  /** The pixels of the winning window of the band with bottom bound y, whose rows
      [y - height, y) the search has used. */
  method BandPixels(img: Grid, W: nat, cfg: Config, mark: Marker, y: nat, col: nat, height: nat)
    returns (found: Cloud)
    requires IsImage(img, W) && cfg.Valid() && y <= |img| && height == y - Top(y, cfg.windowHeight)
    ensures found == BandCloud(img, W, cfg, mark, y, col)
  {
    var top: nat := y - height;
    assert top == Top(y, cfg.windowHeight);
    found := WindowPixels(img, W, top, y, Clip(col, W), Clip(col + cfg.windowWidth, W), mark);
  }

  /** The inner loop of findLinePixels: the pixel mass of every candidate window of the band
      with bottom bound y, left to right from xPos. The window height shrinks to the rows
      that remain when the band is the top one. */
  method ScoreCandidates(img: Grid, W: nat, cfg: Config, y: nat, xPos: nat, windowHeight: nat)
    returns (starts: seq<nat>, sums: seq<int>, height: nat)
    requires IsImage(img, W) && cfg.Valid() && 0 < y <= |img| && windowHeight == cfg.windowHeight
    ensures starts == CandidateStarts(xPos, xPos + cfg.Span(), cfg.searchStep) && |starts| > 0
    ensures |sums| == |starts|
    ensures forall i :: 0 <= i < |starts| ==> sums[i] == CandidateSum(img, W, cfg, y, starts[i])
    ensures height == y - Top(y, cfg.windowHeight)
  {
    height := windowHeight;
    starts, sums := [], [];
    var b: nat := xPos;
    while b < xPos + cfg.numWindows * cfg.windowWidth
      invariant starts + CandidateStarts(b, xPos + cfg.Span(), cfg.searchStep)
             == CandidateStarts(xPos, xPos + cfg.Span(), cfg.searchStep)
      invariant |sums| == |starts|
      invariant forall i :: 0 <= i < |starts| ==> sums[i] == CandidateSum(img, W, cfg, y, starts[i])
      invariant height == if starts == [] then cfg.windowHeight else y - Top(y, cfg.windowHeight)
      decreases xPos + cfg.Span() - b
    {
      assert CandidateStarts(b, xPos + cfg.Span(), cfg.searchStep)
          == [b] + CandidateStarts(b + cfg.searchStep, xPos + cfg.Span(), cfg.searchStep);
      starts := starts + [b];
      if y - height < 0 {
        height := y;
      }
      sums := sums + [WindowSum(img, W, y - height, y, Clip(b, W), Clip(b + cfg.windowWidth, W))];
      b := b + cfg.searchStep;
    }
  }

  /** The winning window copied into a fresh zero mask, re-binarised by the adaptive
      threshold when the mask's maximum is exactly 1, and its non-zero pixels. */
  method WindowPixels(img: Grid, W: nat, top: nat, bot: nat, c0: nat, c1: nat, mark: Marker)
    returns (found: Cloud)
    requires IsImage(img, W) && top <= bot <= |img| && c0 <= c1 <= W
    ensures found == WindowCloud(img, W, top, bot, c0, c1, mark)
  {
    var mask := new int[|img|, W]((r, c) => 0);
    forall r, c | top <= r < bot && c0 <= c < c1 {
      mask[r, c] := img[r][c];
    }
    var window := Snapshot(mask);
    SameGrid(window, Mask(img, W, top, bot, c0, c1), W);
    MaskMaxIsOne(img, W, top, bot, c0, c1);
    if MaxIsOne(window) {
      ThresholdNonZero(img, W, top, bot, c0, c1, mark);
      window := AdaptiveThreshold(window, W, mark);
    } else {
      MaskNonZero(img, W, top, bot, c0, c1);
    }
    found := NonZero(window, W);
  }

  /** The band searched after wins is won by a heaviest candidate around the centre the
      earlier bands left behind: Chosen holds for one more band. */
  lemma ExtendChosen(img: Grid, W: nat, cfg: Config, start: int, wins: seq<nat>, col: nat)
    requires Fits(img, W, cfg) && |wins| < |Bands(img, cfg)|
    requires Chosen(img, W, cfg, start, wins)
    requires IsBest(img, W, cfg, Bands(img, cfg)[|wins|], CenterAfter(img, W, cfg, start, wins), col)
    ensures Chosen(img, W, cfg, start, wins + [col])
  {
    var ws := wins + [col];
    assert ws[..|wins|] == wins && ws[|wins|] == col;
  }

  /** The candidate with the largest score is a heaviest candidate. */
  lemma BestOfSums(img: Grid, W: nat, cfg: Config, y: nat, center: int, starts: seq<nat>, sums: seq<int>, best: nat)
    requires Fits(img, W, cfg) && 0 < y <= |img|
    requires starts == Candidates(center, W, cfg)
    requires |sums| == |starts| && best < |sums|
    requires forall i :: 0 <= i < |starts| ==> sums[i] == CandidateSum(img, W, cfg, y, starts[i])
    requires forall j :: 0 <= j < |sums| ==> sums[j] <= sums[best]
    ensures IsBest(img, W, cfg, y, center, starts[best])
  {
    forall b | b in starts
      ensures CandidateSum(img, W, cfg, y, b) <= CandidateSum(img, W, cfg, y, starts[best])
    {
      var i :| 0 <= i < |starts| && starts[i] == b;
      assert sums[i] <= sums[best];
    }
  }

  /** The centre after one more band follows the > 10 rule. */
  lemma ExtendCenter(img: Grid, W: nat, cfg: Config, start: int, wins: seq<nat>, col: nat)
    requires Fits(img, W, cfg) && |wins| < |Bands(img, cfg)|
    ensures var y := Bands(img, cfg)[|wins|];
      CenterAfter(img, W, cfg, start, wins + [col])
      == if CandidateSum(img, W, cfg, y, col) > 10 then col + cfg.windowWidth / 2 else CenterAfter(img, W, cfg, start, wins)
  {
    assert (wins + [col])[..|wins|] == wins;
  }

  /** The cloud after one more band is the earlier cloud followed by that band's pixels. */
  lemma ExtendCollected(img: Grid, W: nat, cfg: Config, mark: Marker, wins: seq<nat>, col: nat)
    requires Fits(img, W, cfg) && |wins| < |Bands(img, cfg)|
    ensures Collected(img, W, cfg, mark, wins + [col])
         == Collected(img, W, cfg, mark, wins).Concat(BandCloud(img, W, cfg, mark, Bands(img, cfg)[|wins|], col))
  {
    var ws := wins + [col];
    assert ws[..|wins|] == wins && ws[|wins|] == col;
  }

  /** The loop of findLinePixels walks the bands in order: after band k comes band k + 1,
      lower by wh, and it exists exactly when that bound is still positive. */
  lemma {:induction false} BandsAdvance(y: int, wh: nat, k: nat)
    requires wh > 0 && k < |BandBottoms(y, wh)|
    ensures var s := BandBottoms(y, wh);
      (k + 1 < |s| <==> s[k] - wh > 0) && (k + 1 < |s| ==> s[k + 1] == s[k] - wh)
    decreases y
  {
    if k > 0 {
      BandsAdvance(y - wh, wh, k - 1);
    }
  }

  /** Each band's bottom bound is the previous band's bottom bound less the window height,
      so it is the previous band's top row. */
  lemma {:induction false} NextBand(y: int, wh: nat, k: nat)
    requires wh > 0 && 0 < k < |BandBottoms(y, wh)|
    ensures var s := BandBottoms(y, wh); s[k] == s[k - 1] - wh && Top(s[k - 1], wh) == s[k]
    decreases y
  {
    if k > 1 {
      NextBand(y - wh, wh, k - 1);
    }
  }

  /** Every pixel of p lies in row t or below it. */
  predicate RowsFrom(p: Cloud, t: int)
    requires p.Paired()
  {
    forall i :: 0 <= i < |p.ys| ==> t <= p.ys[i]
  }

  /** Every pixel of p lies above row y. */
  predicate RowsAbove(p: Cloud, y: int)
    requires p.Paired()
  {
    forall i :: 0 <= i < |p.ys| ==> p.ys[i] < y
  }

  /** p stays inside an H x W image, lists no pixel twice and lies in row t or below. */
  predicate Layered(p: Cloud, H: nat, W: nat, t: int)
    requires p.Paired()
  {
    InImage(p, H, W) && Distinct(p) && RowsFrom(p, t)
  }

  /** Stacking the pixels of a higher band after those of the lower bands keeps the
      cloud inside the image and free of repeats. */
  lemma StackBands(a: Cloud, b: Cloud, H: nat, W: nat, y: int, t: int)
    requires a.Paired() && b.Paired() && Layered(a, H, W, y) && Layered(b, H, W, t) && RowsAbove(b, y) && t <= y
    ensures Layered(a.Concat(b), H, W, t)
  {
    var p := a.Concat(b);
    var n := |a.xs|;
    forall i, j | 0 <= i < j < |p.xs|
      ensures p.xs[i] != p.xs[j] || p.ys[i] != p.ys[j]
    {
      if j < n {
        assert p.xs[i] == a.xs[i] && p.xs[j] == a.xs[j] && p.ys[i] == a.ys[i] && p.ys[j] == a.ys[j];
      } else if i >= n {
        assert p.xs[i] == b.xs[i - n] && p.xs[j] == b.xs[j - n] && p.ys[i] == b.ys[i - n] && p.ys[j] == b.ys[j - n];
      } else {
        assert p.ys[i] == a.ys[i] && p.ys[j] == b.ys[j - n];
      }
    }
    forall i | 0 <= i < |p.xs|
      ensures 0 <= p.xs[i] < W && 0 <= p.ys[i] < H && t <= p.ys[i]
    {
      if i < n {
        assert p.xs[i] == a.xs[i] && p.ys[i] == a.ys[i];
      } else {
        assert p.xs[i] == b.xs[i - n] && p.ys[i] == b.ys[i - n];
      }
    }
  }

  /** The pixels of a band lie in the band's rows and in the winning window's columns,
      are non-zero in the image, are listed once each in row-major order, and every
      non-zero pixel of the window is among them unless the threshold filter drops it. */
  lemma BandInWindow(img: Grid, W: nat, cfg: Config, mark: Marker, y: nat, col: nat)
    requires IsImage(img, W) && cfg.Valid() && y <= |img|
    ensures InWindow(BandCloud(img, W, cfg, mark, y, col), img,
                     Top(y, cfg.windowHeight), y, Clip(col, W), Clip(col + cfg.windowWidth, W))
    ensures RowMajor(BandCloud(img, W, cfg, mark, y, col))
  {
    WindowCloudInWindow(img, W, Top(y, cfg.windowHeight), y, Clip(col, W), Clip(col + cfg.windowWidth, W), mark);
  }

  /** The window-level statement behind BandInWindow. */
  lemma WindowCloudInWindow(img: Grid, W: nat, top: nat, bot: nat, c0: nat, c1: nat, mark: Marker)
    requires IsImage(img, W) && top <= bot <= |img| && c0 <= c1 <= W
    ensures InWindow(WindowCloud(img, W, top, bot, c0, c1, mark), img, top, bot, c0, c1)
    ensures RowMajor(WindowCloud(img, W, top, bot, c0, c1, mark))
  {
    NonZeroInOrdered(img, W, top, bot, c0, c1, WindowFilter(img, W, top, bot, c0, c1, mark));
  }

  /** The band's pixels, as the collected cloud needs them: inside the image, each once,
      between the band's top row and its bottom bound. */
  lemma BandFacts(img: Grid, W: nat, cfg: Config, mark: Marker, y: nat, col: nat)
    requires IsImage(img, W) && cfg.Valid() && y <= |img|
    ensures var band := BandCloud(img, W, cfg, mark, y, col);
      Layered(band, |img|, W, Top(y, cfg.windowHeight)) && RowsAbove(band, y)
  {
    var band := BandCloud(img, W, cfg, mark, y, col);
    BandInWindow(img, W, cfg, mark, y, col);
    RowMajorDistinct(band);
  }

  /** Without the threshold filter a band contributes every non-zero pixel of the
      winning window. */
  lemma BandComplete(img: Grid, W: nat, cfg: Config, mark: Marker, y: nat, col: nat, r: nat, c: nat)
    requires IsImage(img, W) && cfg.Valid() && y <= |img|
    requires !WindowMaxIsOne(img, Top(y, cfg.windowHeight), y, Clip(col, W), Clip(col + cfg.windowWidth, W))
    requires Top(y, cfg.windowHeight) <= r < y && Clip(col, W) <= c < Clip(col + cfg.windowWidth, W)
    requires img[r][c] != 0
    ensures Lists(BandCloud(img, W, cfg, mark, y, col), c, r)
  {
    NonZeroInComplete(img, W, Top(y, cfg.windowHeight), y, Clip(col, W), Clip(col + cfg.windowWidth, W), All, r, c);
  }

  /** The collected cloud stays inside the image, never lists a pixel twice, and reaches
      no higher than the top of the last band searched. */
  lemma {:induction false} CollectedFacts(img: Grid, W: nat, cfg: Config, mark: Marker, wins: seq<nat>)
    requires Fits(img, W, cfg) && |wins| <= |Bands(img, cfg)|
    ensures Layered(Collected(img, W, cfg, mark, wins), |img|, W,
                    if wins == [] then |img| else Top(Bands(img, cfg)[|wins| - 1], cfg.windowHeight))
    decreases |wins|
  {
    if wins != [] {
      var k := |wins| - 1;
      var bands := Bands(img, cfg);
      var y := bands[k];
      var front := Collected(img, W, cfg, mark, wins[..k]);
      var band := BandCloud(img, W, cfg, mark, y, wins[k]);
      assert Layered(front, |img|, W, y) by {
        CollectedFacts(img, W, cfg, mark, wins[..k]);
        if k > 0 {
          NextBand(|img|, cfg.windowHeight, k);
        }
      }
      BandFacts(img, W, cfg, mark, y, wins[k]);
      StackBands(front, band, |img|, W, y, Top(y, cfg.windowHeight));
    }
  }

  /** Under the asserted W > numWindows * windowWidth the origin is a valid column (a nat)
      and, with at most two side-by-side windows (the default is two), the whole search
      space fits inside the image. */
  lemma OriginInImage(center: int, W: nat, cfg: Config)
    requires cfg.Valid() && W > cfg.Span() && cfg.numWindows <= 2
    ensures Origin(center, W, cfg) + cfg.Span() <= W
  {
    if center - cfg.windowWidth >= 0 && center + cfg.windowWidth <= W {
      assert cfg.Span() <= 2 * cfg.windowWidth by {
        if cfg.numWindows == 1 {
          assert cfg.Span() == cfg.windowWidth;
        } else {
          assert cfg.Span() == 2 * cfg.windowWidth;
        }
      }
    }
  }

  /** range(b, limit, step) yields strictly increasing starts in [b, limit), and at
      least one exactly when b < limit. */
  lemma {:induction false} CandidateOrder(b: nat, limit: int, step: nat)
    requires step > 0
    ensures var s := CandidateStarts(b, limit, step);
      (|s| > 0 <==> b < limit) &&
      (forall i :: 0 <= i < |s| ==> b <= s[i] < limit) &&
      (forall i, j :: 0 <= i < j < |s| ==> s[i] < s[j])
    decreases limit - b
  {
    if b < limit {
      var s := CandidateStarts(b, limit, step);
      var rest := CandidateStarts(b + step, limit, step);
      CandidateOrder(b + step, limit, step);
      assert s == [b] + rest;
      forall i, j | 0 <= i < j < |s|
        ensures s[i] < s[j]
      {
        assert s[j] == rest[j - 1];
        if i > 0 {
          assert s[i] == rest[i - 1];
        }
      }
    }
  }

  /** range(b, limit, step) holds b, b + step, b + 2 * step, ..., and as many of them as
      it takes to reach limit: ceil((limit - b) / step) values. */
  lemma {:induction false} CandidateLayout(b: nat, limit: int, step: nat)
    requires step > 0
    ensures var cs := CandidateStarts(b, limit, step);
      (b >= limit ==> cs == []) &&
      (b < limit ==> (|cs| - 1) * step < limit - b <= |cs| * step) &&
      forall i :: 0 <= i < |cs| ==> cs[i] == b + i * step
    decreases limit - b
  {
    if b < limit {
      var rest := CandidateStarts(b + step, limit, step);
      CandidateLayout(b + step, limit, step);
      var n := |rest|;
      assert (n + 1) * step == n * step + step;
      forall i | 1 <= i <= n
        ensures b + step + (i - 1) * step == b + i * step
      {
        assert i * step == (i - 1) * step + step;
      }
    }
  }

  /** range(y, 0, -wh) holds y, y - wh, y - 2 * wh, ...: band k has bottom bound
      y - k * wh and covers rows [Top(y - k * wh, wh), y - k * wh). */
  lemma {:induction false} BandLayout(y: int, wh: nat)
    requires wh > 0
    ensures forall k :: 0 <= k < |BandBottoms(y, wh)| ==> BandBottoms(y, wh)[k] == y - k * wh
    decreases y
  {
    if y > 0 {
      var s := BandBottoms(y, wh);
      var rest := BandBottoms(y - wh, wh);
      BandLayout(y - wh, wh);
      forall k | 1 <= k < |s|
        ensures s[k] == y - k * wh
      {
        assert s[k] == rest[k - 1];
        assert k - 1 < |rest|;
        assert rest[k - 1] == (y - wh) - (k - 1) * wh;
        assert k * wh == (k - 1) * wh + wh;
      }
    }
  }

  /** range(y, 0, -wh) has ceil(y / wh) values: the fewest steps of wh that cover y. */
  lemma {:induction false} BandCount(y: int, wh: nat)
    requires wh > 0 && y > 0
    ensures var n := |BandBottoms(y, wh)|; (n - 1) * wh < y <= n * wh
    decreases y
  {
    var n := |BandBottoms(y, wh)|;
    if y - wh > 0 {
      BandCount(y - wh, wh);
    }
    assert n * wh == (n - 1) * wh + wh;
  }

  /** A later (higher) band lies wholly above an earlier one: its bottom bound is at most
      the earlier band's top row. */
  lemma {:induction false} BandsDescend(y: int, wh: nat, k: nat, j: nat)
    requires wh > 0 && k < j < |BandBottoms(y, wh)|
    ensures var s := BandBottoms(y, wh); s[j] <= Top(s[k], wh)
    decreases y
  {
    var s := BandBottoms(y, wh);
    if k > 0 {
      BandsDescend(y - wh, wh, k - 1, j - 1);
    } else {
      assert s[j] == BandBottoms(y - wh, wh)[j - 1];
    }
  }

  /** The bands partition the rows of the image: every row lies in exactly one band. */
  lemma BandsPartition(H: nat, wh: nat, r: nat)
    requires wh > 0 && r < H
    ensures var s := BandBottoms(H, wh);
      (exists k :: 0 <= k < |s| && Top(s[k], wh) <= r < s[k]) &&
      (forall k, j :: 0 <= k < |s| && 0 <= j < |s| && Top(s[k], wh) <= r < s[k] && Top(s[j], wh) <= r < s[j] ==> k == j)
  {
    var s := BandBottoms(H, wh);
    RowInSomeBand(H, wh, r);
    forall k, j | 0 <= k < |s| && 0 <= j < |s| && Top(s[k], wh) <= r < s[k] && Top(s[j], wh) <= r < s[j]
      ensures k == j
    {
      if k < j {
        BandsDescend(H, wh, k, j);
      } else if j < k {
        BandsDescend(H, wh, j, k);
      }
    }
  }

  /** Walking down the bands from y reaches the band holding row r. */
  lemma {:induction false} RowInSomeBand(y: int, wh: nat, r: nat)
    requires wh > 0 && r < y
    ensures exists k :: 0 <= k < |BandBottoms(y, wh)| && Top(BandBottoms(y, wh)[k], wh) <= r < BandBottoms(y, wh)[k]
    decreases y
  {
    var s := BandBottoms(y, wh);
    assert s == [y] + BandBottoms(y - wh, wh);
    if Top(y, wh) <= r {
      assert Top(s[0], wh) <= r < s[0];
    } else {
      RowInSomeBand(y - wh, wh, r);
      var rest := BandBottoms(y - wh, wh);
      var k :| 0 <= k < |rest| && Top(rest[k], wh) <= r < rest[k];
      assert s[k + 1] == rest[k];
      assert Top(s[k + 1], wh) <= r < s[k + 1];
    }
  }

  /** Chosen, band by band: every recorded window is a heaviest candidate of its band,
      searched around the centre the bands below it left behind. */
  lemma {:induction false} ChosenAt(img: Grid, W: nat, cfg: Config, start: int, wins: seq<nat>, k: nat)
    requires Fits(img, W, cfg) && |wins| <= |Bands(img, cfg)|
    requires Chosen(img, W, cfg, start, wins) && k < |wins|
    ensures IsBest(img, W, cfg, Bands(img, cfg)[k], CenterAfter(img, W, cfg, start, wins[..k]), wins[k])
    decreases |wins|
  {
    var n := |wins| - 1;
    if k < n {
      ChosenAt(img, W, cfg, start, wins[..n], k);
      assert wins[..n][..k] == wins[..k];
    }
  }

  /** Every pixel contributed by a higher band lies in a higher row than every pixel of
      a lower band. */
  lemma BandsOrdered(img: Grid, W: nat, cfg: Config, mark: Marker, wins: seq<nat>, k: nat, j: nat)
    requires Fits(img, W, cfg) && k < j < |wins| <= |Bands(img, cfg)|
    ensures var bands := Bands(img, cfg);
      var lower := BandCloud(img, W, cfg, mark, bands[k], wins[k]);
      var upper := BandCloud(img, W, cfg, mark, bands[j], wins[j]);
      forall u, l :: 0 <= u < |upper.ys| && 0 <= l < |lower.ys| ==> upper.ys[u] < lower.ys[l]
  {
    var bands := Bands(img, cfg);
    BandFacts(img, W, cfg, mark, bands[k], wins[k]);
    BandFacts(img, W, cfg, mark, bands[j], wins[j]);
    BandsDescend(|img|, cfg.windowHeight, k, j);
  }

  /** Without the threshold filter, every non-zero pixel inside the winning window of a
      band ends up in the collected cloud. */
  lemma CollectedComplete(img: Grid, W: nat, cfg: Config, mark: Marker, wins: seq<nat>,
                          k: nat, r: nat, c: nat)
    requires Fits(img, W, cfg) && k < |wins| <= |Bands(img, cfg)|
    requires var y := Bands(img, cfg)[k];
      !WindowMaxIsOne(img, Top(y, cfg.windowHeight), y, Clip(wins[k], W), Clip(wins[k] + cfg.windowWidth, W)) &&
      Top(y, cfg.windowHeight) <= r < y && Clip(wins[k], W) <= c < Clip(wins[k] + cfg.windowWidth, W) &&
      img[r][c] != 0
    ensures Lists(Collected(img, W, cfg, mark, wins), c, r)
  {
    var upTo := wins[..k + 1];
    var band := BandCloud(img, W, cfg, mark, Bands(img, cfg)[k], wins[k]);
    BandComplete(img, W, cfg, mark, Bands(img, cfg)[k], wins[k], r, c);
    assert upTo[..k] == wins[..k] && upTo[k] == wins[k];
    ListsConcat(Collected(img, W, cfg, mark, wins[..k]), band, c, r);
    CollectedGrows(img, W, cfg, mark, wins, k + 1, c, r);
  }

  /** A pixel listed after the first m bands stays listed after all of them. */
  lemma {:induction false} CollectedGrows(img: Grid, W: nat, cfg: Config, mark: Marker, wins: seq<nat>,
                                          m: nat, x: int, y: int)
    requires Fits(img, W, cfg) && m <= |wins| <= |Bands(img, cfg)|
    requires Lists(Collected(img, W, cfg, mark, wins[..m]), x, y)
    ensures Lists(Collected(img, W, cfg, mark, wins), x, y)
    decreases |wins| - m
  {
    if m < |wins| {
      var next := wins[..m + 1];
      assert next[..m] == wins[..m];
      ListsConcat(Collected(img, W, cfg, mark, wins[..m]),
                  BandCloud(img, W, cfg, mark, Bands(img, cfg)[m], next[m]), x, y);
      CollectedGrows(img, W, cfg, mark, wins, m + 1, x, y);
    } else {
      assert wins[..m] == wins;
    }
  }

  /** Pixel (x, y) is a non-zero pixel of img, and it lies in the winning window of
      every band among wins whose rows contain row y. */
  ghost predicate FromWonWindow(img: Grid, W: nat, cfg: Config, wins: seq<nat>, x: int, y: int)
    requires Fits(img, W, cfg) && |wins| <= |Bands(img, cfg)|
  {
    0 <= y < |img| && 0 <= x < W && img[y][x] != 0 &&
    forall k :: 0 <= k < |wins| && Top(Bands(img, cfg)[k], cfg.windowHeight) <= y < Bands(img, cfg)[k] ==>
      Clip(wins[k], W) <= x < Clip(wins[k] + cfg.windowWidth, W)
  }

  /** Every pixel of the collected cloud is a non-zero image pixel inside the winning
      window of the band that holds its row: the cloud lists the windows' pixels and
      nothing else. */
  lemma {:induction false} CollectedOnPixels(img: Grid, W: nat, cfg: Config, mark: Marker, wins: seq<nat>, i: nat)
    requires Fits(img, W, cfg) && |wins| <= |Bands(img, cfg)|
    requires i < |Collected(img, W, cfg, mark, wins).xs|
    ensures var p := Collected(img, W, cfg, mark, wins);
      FromWonWindow(img, W, cfg, wins, p.xs[i], p.ys[i])
    decreases |wins|
  {
    var m := |wins| - 1;
    var front := Collected(img, W, cfg, mark, wins[..m]);
    var band := BandCloud(img, W, cfg, mark, Bands(img, cfg)[m], wins[m]);
    var p := Collected(img, W, cfg, mark, wins);
    var n := |front.xs|;
    assert p == front.Concat(band);
    if i < n {
      assert p.xs[i] == front.xs[i] && p.ys[i] == front.ys[i];
      CollectedOnPixels(img, W, cfg, mark, wins[..m], i);
      FrontOnPixels(img, W, cfg, mark, wins, i);
    } else {
      assert p.xs[i] == band.xs[i - n] && p.ys[i] == band.ys[i - n];
      BandOnPixels(img, W, cfg, mark, wins, i - n);
    }
  }

  /** A pixel of the bands before the last one keeps its place when the last band is
      added: its row lies below the last band, so only the earlier windows constrain it. */
  lemma FrontOnPixels(img: Grid, W: nat, cfg: Config, mark: Marker, wins: seq<nat>, i: nat)
    requires Fits(img, W, cfg) && 0 < |wins| <= |Bands(img, cfg)|
    requires var front := Collected(img, W, cfg, mark, wins[..|wins| - 1]);
      i < |front.xs| && FromWonWindow(img, W, cfg, wins[..|wins| - 1], front.xs[i], front.ys[i])
    ensures var front := Collected(img, W, cfg, mark, wins[..|wins| - 1]);
      FromWonWindow(img, W, cfg, wins, front.xs[i], front.ys[i])
  {
    var m := |wins| - 1;
    var front := Collected(img, W, cfg, mark, wins[..m]);
    assert front.ys[i] >= Bands(img, cfg)[m] by {
      CollectedFacts(img, W, cfg, mark, wins[..m]);
      if m > 0 {
        NextBand(|img|, cfg.windowHeight, m);
      }
    }
    forall k | 0 <= k < m
      ensures wins[..m][k] == wins[k]
    {
    }
  }

  /** A pixel of the last band lies in that band's window, and above every earlier band. */
  lemma BandOnPixels(img: Grid, W: nat, cfg: Config, mark: Marker, wins: seq<nat>, i: nat)
    requires Fits(img, W, cfg) && 0 < |wins| <= |Bands(img, cfg)|
    requires i < |BandCloud(img, W, cfg, mark, Bands(img, cfg)[|wins| - 1], wins[|wins| - 1]).xs|
    ensures var band := BandCloud(img, W, cfg, mark, Bands(img, cfg)[|wins| - 1], wins[|wins| - 1]);
      FromWonWindow(img, W, cfg, wins, band.xs[i], band.ys[i])
  {
    var m := |wins| - 1;
    var bands := Bands(img, cfg);
    BandInWindow(img, W, cfg, mark, bands[m], wins[m]);
    forall k | 0 <= k < m
      ensures bands[m] <= Top(bands[k], cfg.windowHeight)
    {
      BandsDescend(|img|, cfg.windowHeight, k, m);
    }
  }

  /** On an image whose only non-zero pixels form one vertical stripe of columns
      [a, b), every pixel the search collects lies in that stripe. */
  lemma OneStripe(img: Grid, W: nat, cfg: Config, mark: Marker, wins: seq<nat>, a: int, b: int)
    requires Fits(img, W, cfg) && |wins| <= |Bands(img, cfg)|
    requires forall r, c :: 0 <= r < |img| && 0 <= c < W && img[r][c] != 0 ==> a <= c < b
    ensures var p := Collected(img, W, cfg, mark, wins);
      forall i :: 0 <= i < |p.xs| ==> a <= p.xs[i] < b
  {
    var p := Collected(img, W, cfg, mark, wins);
    forall i | 0 <= i < |p.xs|
      ensures a <= p.xs[i] < b
    {
      CollectedOnPixels(img, W, cfg, mark, wins, i);
    }
  }
}
