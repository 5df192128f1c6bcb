# Lane-line finder: a Dafny model

This project models the lane-pixel search of `util_findLane.py`, a bird's-eye-view lane detector.
The detector works in four steps:

1. It locates the two lane lines from a column histogram of the lower half of a grey image (`findLinePositions`).
2. It tracks each line upward with a sliding window, band by band, collecting the line's pixel coordinates (`findLinePixels`).
3. It fits a quadratic x = a·y² + b·y + c through each line's pixels (`computeLaneLines`).
4. It strings these together (`findLanePixels`, `findLaneLines`).

The modules follow that structure:

- `Grids` (grids.dfy) holds the NumPy operations the detector relies on:
  - window sums;
  - the zero mask with one window copied in;
  - `np.nonzero` as a row-major listing;
  - the 8-bit scaling and binary output around the adaptive threshold.
- `Peaks` (peaks.dfy) holds the histogram and the choice of the two highest peaks.
- `Tracker` (tracker.dfy) holds the sliding-window search. `FindLinePixels` is an imperative method with two nested loops; its inner loop is `ScoreCandidates`, and the body of its outer loop is `SearchBand`. The method is proved against a relational specification:
  - `Bands` lists the band bottoms.
  - `Chosen` says that each band's winning window is a heaviest candidate around the centre the lower bands left behind.
  - `CenterAfter` gives the centre after each band.
  - `Collected` is the concatenation of the bands' pixel clouds.

  The helper lemmas `ExtendChosen`, `ExtendCenter` and `ExtendCollected` unfold `Chosen`, `CenterAfter` and `Collected` by one band. They carry the loop invariants from one pass to the next.
  The helper lemma `SpanCoversWindow` (numWindows · windowWidth is at least one window wide) supplies the nonlinear step behind `Origin`'s contract.
- `Fit` (fit.dfy) holds the guarded fit. The least-squares solver is a function parameter.
- `Lanes` (lanes.dfy) holds the two composition methods.

The image is a read-only value (`seq<seq<int>>`, rectangular of width `W`), so the search provably never writes it.
The scratch mask `binary_map_line` is an `array2<int>`. It is filled by a parallel assignment and then read back with `Snapshot`.

## Model

| member | source | states |
|---|---|---|
| Tracker.FindLinePixels | util_findLane.py:38-152 | x and y have equal length. Every pixel lies inside the H × W image and none is listed twice. Every pixel is a non-zero image pixel inside the winning window of the band holding its row (`FromWonWindow`). There is one window per band, each a heaviest candidate around the current centre (`Chosen`). The output is exactly the bands' pixel clouds in sweep order (`Collected`). |
| Tracker.SearchBand | util_findLane.py:65-128 | One band: the winning column is a heaviest candidate around the origin clamped from the centre. The next centre is col + ww/2 when the winning mass is > 10 and the old centre otherwise. The pixels are that band's cloud, and the window height is the band's remaining height. |
| Tracker.ScoreCandidates | util_findLane.py:79-96 | The candidate starts are exactly range(x_pos, x_pos + n·ww, step), at least one of them. Each score is the pixel mass of that candidate's window, cut to the band's rows and truncated at the right edge. The returned height is the top band's shrunken height. |
| Tracker.BandPixels | util_findLane.py:109-128 | The pixels appended for a band are that band's cloud for the winning column. |
| Tracker.WindowPixels | util_findLane.py:109-123 | The winning window is copied into a zero array2 mask, re-binarised by the threshold when the mask's maximum is 1, and listed by np.nonzero. This yields exactly `WindowCloud`. |
| Tracker.BestOfSums | util_findLane.py:100-103 | The index of a maximal score gives a candidate at least as heavy as every candidate (`IsBest`). Ties are left open. |
| Tracker.ChosenAt | util_findLane.py:100-103 | Under `Chosen`, every band k's window is a heaviest candidate around the centre after bands 0..k-1. |
| Tracker.Top | util_findLane.py:90-91 | A band's top row is at or above its bottom bound, and the band is at most windowHeight rows tall. It is shorter only when it reaches row 0, i.e. the top band's height shrinks to the rows that remain. |
| Tracker.Origin | util_findLane.py:67-72 | The clamped x_pos is a column (>= 0) from which a whole window fits in the image. Either the whole search space fits, or x_pos is centre - windowWidth with centre + windowWidth <= W. |
| Tracker.CandidateOrder | util_findLane.py:79 | range(b, limit, step) yields strictly increasing starts in [b, limit), and at least one exactly when b < limit. |
| Tracker.NextCenter | util_findLane.py:106-107 | A centre that moves lands inside the winning window (col <= c <= col + ww), and only when the window's mass exceeds 10. |
| Tracker.RecenterOnPixels | util_findLane.py:106-107 | The centre moves only for a window that holds a non-zero pixel: a mass above 10 means the window actually contains line pixels. |
| Grids.RowSumSigns | util_findLane.py:93-96 | A row segment's sum is non-negative over non-negative pixels and non-zero only when some pixel of the segment is. |
| Grids.WindowSumSigns | util_findLane.py:93-96 | np.sum over a window slice is non-negative over non-negative pixels and non-zero only when the window holds a non-zero pixel. |
| Peaks.ColumnSum | util_findLane.py:22 | A column's sum over a row range is non-zero only when some pixel of that column segment is. |
| Fit.Sample | util_findLane.py:243 | The sampled curve has one value per y, each a·y² + b·y + c for the coefficient array [a, b, c]; the right line is sampled the same way at line 247. |
| Tracker.BandBottoms | util_findLane.py:61 | range(y, 0, -wh) is empty iff y <= 0. Otherwise it starts at y, every value lies in (0, y], and the last value is at most wh. |
| Tracker.BandLayout | util_findLane.py:61 | Band k has bottom bound H - k·wh. |
| Tracker.BandCount | util_findLane.py:61 | The number of bands n is ceil(H/wh): (n-1)·wh < H <= n·wh. |
| Tracker.BandsDescend | util_findLane.py:61-93 | A later band's bottom bound is at most an earlier band's top row (the top band's height is shrunk to the remaining rows). |
| Tracker.BandsPartition | util_findLane.py:61-93 | Every row of [0, H) lies in exactly one band. |
| Tracker.OriginInImage | util_findLane.py:66-72 | Under the asserted W > n·ww and for n <= 2 windows (the default is 2), the clamped origin satisfies x_pos + n·ww <= W. That x_pos >= 0 is carried by its type. |
| Tracker.CandidateLayout | util_findLane.py:79 | range(b, limit, step) lists b + i·step for each i, with (count-1)·step < limit - b <= count·step, i.e. ceil((limit-b)/step) values; it is empty when b >= limit. |
| Tracker.BandInWindow | util_findLane.py:109-123 | A band's pixels lie in the band's rows and in the winning window's columns (truncated at W), are non-zero in the image, and are in row-major order. |
| Tracker.BandComplete | util_findLane.py:109-123 | When the window's maximum is not exactly 1 (no threshold), every non-zero image pixel inside the winning window is among the band's pixels. |
| Tracker.BandFacts | util_findLane.py:109-123 | A band's pixels are inside the image, distinct, and lie in rows [Top(y), y). |
| Tracker.StackBands | util_findLane.py:127-128 | Appending a higher band's pixels after a lower band's keeps the cloud inside the image and free of repeated pairs. |
| Tracker.CollectedFacts | util_findLane.py:127-128 | The collected cloud is inside the image, lists no pair twice, and reaches no higher than the top of the last band searched. |
| Tracker.BandsOrdered | util_findLane.py:127-128 | Every y contributed by a later band is smaller than every y of an earlier band. |
| Tracker.CollectedComplete | util_findLane.py:109-128 | For a band whose window is not thresholded, every non-zero pixel in its winning window appears in the final cloud. |
| Tracker.CollectedGrows | util_findLane.py:127-128 | hstack only appends: a pixel listed after the first m bands is still listed after all bands. |
| Tracker.CollectedOnPixels | util_findLane.py:109-128 | Every pixel of the collected cloud is a non-zero image pixel, and it lies in the winning window's columns (cut at W) of every band whose rows contain it. Its helpers `FrontOnPixels` and `BandOnPixels` handle the lower bands and the newest band. |
| Tracker.OneStripe | util_findLane.py:109-128 | On an image whose non-zero pixels all lie in columns [a, b), every collected x lies in [a, b). |
| Tracker.WindowCloudInWindow | util_findLane.py:123 | The listing of a window lies inside it, consists of non-zero image pixels, and is row-major. |
| Tracker.BandCloud | util_findLane.py:123 | A band's pixel cloud pairs one y with every x. |
| Tracker.MaxExists | util_findLane.py:100 | A non-empty score list has an index holding its maximum. |
| Grids.NonZeroIn | util_findLane.py:123 | The listing pairs its coordinates. Every listed pixel lies in the rectangle, is non-zero, and is kept by the filter. |
| Grids.RowNonZero | util_findLane.py:123 | The same for one row segment, every pixel in that row. |
| Grids.NonZero | util_findLane.py:123 | np.nonzero of a whole image lists pixels inside the image. |
| Grids.NonZeroInOrdered | util_findLane.py:123 | The listing is strictly row-major ordered and lies in the rectangle (`InWindow`). |
| Grids.NonZeroInComplete | util_findLane.py:123 | Every non-zero kept cell of the rectangle is listed. |
| Grids.NonZeroDistinct | util_findLane.py:123 | np.nonzero never lists a pixel twice. |
| Grids.RowMajorDistinct | util_findLane.py:123 | A row-major ordered cloud has no repeated pair. |
| Grids.Mask | util_findLane.py:109-112 | np.zeros_like(img) with a window copied in has the image's shape. |
| Grids.MaskMaxIsOne | util_findLane.py:114 | np.max(mask) == 1 iff the copied window holds a 1 and nothing greater. |
| Grids.Scale255 | util_findLane.py:115 | The scaled 8-bit mask has the mask's shape. |
| Grids.AdaptiveThreshold | util_findLane.py:116 | The threshold output has the mask's shape and is non-zero exactly where the scaled cell is non-zero and passes the filter. |
| Grids.MaskNonZero | util_findLane.py:109-123 | np.nonzero of the mask equals the listing of the image's non-zero pixels inside the window. |
| Grids.ThresholdNonZero | util_findLane.py:114-123 | np.nonzero of the thresholded mask equals the listing of the window's non-zero pixels that pass the filter. |
| Grids.WindowOnly | util_findLane.py:109-123 | An image that is zero outside a window lists only the window. |
| Peaks.FindLinePositions | util_findLane.py:12-35 | (0,0) when fewer than two peaks are given. Otherwise it returns peaks i ≠ j where i has the largest histogram value and j the largest among the rest. |
| Peaks.PositionsInImage | util_findLane.py:31-35 | With two peaks or more, both positions are image columns and the first's histogram value is at least the second's. With distinct peaks the two positions differ. |
| Peaks.BestIndex | util_findLane.py:28 | The chosen index is not the excluded one, and no other index except the excluded one has a larger value. |
| Peaks.Histogram | util_findLane.py:22 | The histogram has one entry per column. |
| Peaks.ColumnIsWindow | util_findLane.py:22 | A histogram entry equals the window sum of the one-column window over rows [H//2, H). |
| Peaks.ColumnSumNonNegative | util_findLane.py:22 | An image without negative pixels has a non-negative histogram. |
| Fit.ComputeLaneLines | util_findLane.py:221-251 | The left fit is empty iff any of the four arrays is empty, and then all four results are empty. Otherwise both fits are the solver's coefficients [a, b, c] and each fitx is a·y²+b·y+c at every y of its own line, with the length of that line's ys. |
| Fit.FitsTogether | util_findLane.py:233-247 | For paired clouds the two lines are fitted together or not at all, exactly when both clouds are non-empty. Each fitx has its cloud's length. |
| Fit.Reals | util_findLane.py:241-247 | The float conversion keeps every coordinate's value and the array length. |
| Lanes.FindLanePixels | util_findLane.py:159-218 | Both lines are tracked with the default settings from the columns `FindLinePositions` returns, each satisfying the tracker's specification. Every pixel is inside the image and none is listed twice. |
| Lanes.FindLaneLines | util_findLane.py:281-291 | The lines carry `ComputeLaneLines`' results for the tracked clouds. Both lines are fitted or neither is, exactly when both clouds are non-empty. Fitted curves are sampled at every pixel row, and every row is inside the image. |

## Left out

- `peakutils.indexes` (the peak detector with its 1 % threshold and 100-column minimum distance) is a foreign library. Its result is the input `peaks`, a sequence of column indices below W.
- The arithmetic of `cv2.adaptiveThreshold` (3 × 3 mean, offset 0) is foreign. It is the `Marker` parameter, which decides for each cell of the scaled mask whether it survives. The model fixes only what follows from the binary-output mode: the output is 255 exactly where the scaled cell is non-zero and passes the filter.
- `np.polyfit` (floating-point least squares) is the `Fitter` parameter. The model proves neither optimality nor any property of the coefficients. Curve values are exact `real` arithmetic, not IEEE doubles.
- The debug branches of `findLinePixels` and `findLanePixels` are left out, and so are `DBG_visualizeDetectedLane`, the timestamped debug image and the logger calls. They are plotting, file output and logging that do not affect the results.
- `main` and the timing block are left out. They are file globbing, image reading and printing.
- `qLine` and the curvature in metres are left out. util_line.py is not part of this model. `LaneLine` only records the four arrays `findLaneLines` passes to it.
- The NumPy arrays are float arrays. The model keeps pixel coordinates as integers and converts them to `real` only for the fit.
- Tracker.BestOfSums, Tracker.SearchBand: the reversed `np.argsort` breaks ties among equal scores in an unspecified order. The model therefore promises only some heaviest candidate, not a particular one.
- Peaks.FindLinePositions: it breaks ties by the earlier peak, but its contract, like the source's unstable sort, promises only a highest peak and a highest of the others.
- Tracker.OriginInImage: the bound x_pos + n·ww <= W is proved only for n <= 2. For more windows the centred origin can exceed W - n·ww. The model then follows the code: windows reaching past W are truncated by the slice rule, not shifted. Even with the default settings, candidates starting near x_pos + n·ww extend past x_pos + n·ww; their slices are cut at W. In both cases the code does not keep every candidate window inside [0, W − span].
- Ties in the winning sum and among peak heights are not resolved first-found: the code sorts with an unstable reversed `np.argsort`, and the model promises only a maximal choice.
- The code skips both fits when either cloud is empty, not only the empty line's fit; the model follows the code.
- Lanes.FindLanePixels, Lanes.FindLaneLines: these use the default settings (window 100 × 20, step 10, two windows), as the source does. Only `findLinePixels` itself takes other settings.
- Tracker.FindLinePixels: the source's failure paths become preconditions and are not modelled as errors. These are the `assert(img_width > num_of_windows*window_width)` that raises AssertionError (`Fits`); the ValueError `range` raises for a zero window height or search step (`Config.Valid`); and the IndexError at `ls_btm_left_pos[idx_search[0]]` when the candidate range is empty, i.e. when window_width or num_of_windows is 0 (`Config.Valid`) or negative, or search_step is negative. Negative settings cannot be expressed because the `Config` fields are `nat`, so the source's answer to a negative window_height (an empty range and empty arrays) is not modelled either.
- Fit.ComputeLaneLines: `np.polyfit` raises TypeError at lines 242 and 246 when a line's x and y arrays are both non-empty but of different lengths. The model does not model this error: it returns the solver's fit for such arrays. Every caller in the model passes clouds whose xs and ys have equal length (`FindLinePixels` ensures it), so the error cannot arise there; `FitsTogether` requires equal lengths.
