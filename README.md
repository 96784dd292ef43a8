# SmartCollageMaker, modelled in Dafny

SmartCollageMaker composes a batch of images into one grid picture. It has two parts, both in
`main.py`:

- The **layout selector** (`calculate_layout`) picks a grid shape for `n` images. It scans column
  counts `c = 1..n`. For each it takes `rows = ceil(n/c)` and scores the shape as
  `0.7 * (empty cells) + 0.3 * |c/rows - 16/9|`. It keeps the first strict minimum.
- The **collage builder** (`create_collage`) works in four steps.
  1. An inspection pass collects the aspect ratio `w/h` of every image that opens. If there are
     none, it aborts.
  2. It sorts the ratios and takes the one at index `len//2` as the median. A landscape-leaning
     median (`> 1`) gives a thumbnail box `min(800, max_width)` wide. Otherwise the box is
     `min(600, max_height)` high. The other side follows the median, truncated to an integer.
  3. A resize pass re-opens every input path and shrinks each image into that box. If nothing
     survives, it aborts.
  4. It lays the survivors out on a white canvas. The grid is the selected layout. Each cell is as
     large as the largest survivor. Survivor `i` goes to row `i // cols` and column `i % cols`,
     centred in its cell, with offsets rounded down.

The model keeps the program's structure:

- `Layout.CalculateLayout` is the scanning loop. Its contract says the result is the first minimum
  (`Layout.IsBestLayout`). Scores are exact rationals (`real`).
- The two passes are loops that append to a list. They are proved equal to a filter (`Common.Kept`)
  of the per-path outcomes.
- The ratio list is sorted in place (`Median.SortAscending`, an insertion sort on an array).
- The median is specified without any sort: it is an element, more than `len/2` ratios are at most
  it, and the remaining positions hold ratios at least it (`Median.IsMedian`). That value is unique.
- The canvas is a class (`Raster.Canvas`) whose `Paste` records each rectangle.
- `Collage.CreateCollage` returns one of three outcomes: one of the two aborts, or the finished
  collage. For a finished collage it proves that every image lies whole inside the canvas, inside
  its own cell, and that no two images overlap.

The imaging library is not modelled. The inspection pass receives, for each path, the image size
or `None` when opening raised. The resize pass receives a function from (path index, thumbnail box)
to the resized size, or `None` when opening or resizing raised.

The resize pass iterates over all input paths, including those the inspection pass skipped
(main.py:61). A path that failed the first time but opens the second time does appear in the
collage. The model follows the code here, not a reading in which the second pass only revisits
accepted images.

## Model

| member | source | states |
|---|---|---|
| `Layout.RowsFor` | main.py:12 | `ceil(n/c)` is the fewest rows that hold `n` images in `c` columns: `c*rows >= n` and `c*(rows-1) < n` |
| `Layout.CalculateLayout` | main.py:6-27 | no layout exactly when `n = 0`; otherwise `(cols, rows)` with `1 <= cols <= n`, `1 <= rows <= n`, `rows = ceil(n/cols)`, `cols*rows >= n`, fewer than `cols` empty cells; `cols` has a score no higher than any of `1..n` and strictly lower than every smaller column count (the first strict minimum) |
| `Layout.Waste` | main.py:13-14 | the empty cells number fewer than the columns, and there are none exactly when the column count divides the image count |
| `Layout.FullRowsIff` | main.py:12-14 | `c * ceil(n/c) == n` exactly when `c` divides `n` |
| `Layout.Score` | main.py:17-21 | the score is at least 0.7 per empty cell, and it is zero exactly when the grid is full and `cols/rows` is exactly 16/9 |
| `Layout.RowsBounds` | main.py:11-14 | for `1 <= c <= n`, the row count lies in `1..n` and the waste is below `c` |
| `Layout.BestLayoutUnique` | main.py:11-25 | at most one column count satisfies the scan's contract, so the selector is deterministic |
| `Layout.LayoutOfOne` | main.py:11-25 | one image gets a 1 x 1 grid |
| `Layout.LayoutOfFour` | main.py:11-25 | four images get 2 x 2 (score 0.2333 against 0.4583 for one column, 1.4833 for three columns with two empty cells, 0.6667 for one row) |
| `Layout.LayoutOfNine` | main.py:11-25 | nine images get 3 x 3 |
| `Common.Kept` | main.py:35-42 | the append-on-success, skip-on-exception filter of both passes (main.py:35-42 and 61-67) never collects more values than there were attempts |
| `Common.KeptEmptyIff` | main.py:35-46 | a pass that appends on success and skips on an exception collects nothing exactly when every attempt failed |
| `Common.KeptMembers` | main.py:35-42 | a value is collected exactly when some attempt produced it |
| `Common.KeptCount` | main.py:61-67 | each successful attempt contributes exactly one collected value |
| `Collage.RatioOf` | main.py:36-42 | a path yields a ratio exactly when it opens and has a non-zero height (a zero height raises and is skipped); the ratio is non-negative and times the height gives the width |
| `Collage.InspectionPass` | main.py:34-42 | the collected ratios are exactly those of the images that open with a non-zero height, in input order |
| `Collage.NoAspectRatiosIff` | main.py:35-46 | the first abort happens exactly when every path failed to open or has zero height |
| `Collage.AspectRatiosFromInputs` | main.py:38-39 | every collected ratio is `w/h` of some input and is non-negative |
| `Median.SortAscending` | main.py:49 | the ratios end sorted ascending and are a permutation of the input |
| `Median.Insert` | main.py:49 | one insertion step: a sorted prefix of length `i` becomes a sorted prefix of length `i+1`, as a permutation |
| `Median.CountPermutation` | main.py:49 | how many ratios lie at or below (at or above) a value does not change under sorting |
| `Median.MedianOfSorted` | main.py:49-50 | the element at index `len//2` of the sorted list is the median: an element of the ratios, more than `len//2` ratios are at most it, at least `len - len//2` are at least it |
| `Median.MedianUnique` | main.py:50 | only one value has that property |
| `Collage.MedianAspect` | main.py:49-50 | sorting and indexing at `len//2` yields the median of the collected ratios |
| `Thumbnail.Trunc` | main.py:55 | `int()` truncates toward zero: for `x >= 0` the result is the floor, for `x < 0` the ceiling |
| `Thumbnail.LandscapeHeight` | main.py:54-55 | for a median above 1, the derived height lies between 0 and the width, with the width's sign |
| `Thumbnail.PortraitWidth` | main.py:57-58 | for a median in `[0, 1]`, the derived width lies between 0 and the height, with the height's sign |
| `Thumbnail.ThumbBox` | main.py:53-58 | a median above 1 gives width `min(800, max_width)` and a height between 0 and the width; a median of at most 1 gives height `min(600, max_height)` and, for a non-negative median, a width between 0 and the height (mirrored for a negative maximum) |
| `Thumbnail.ThumbBoxKeepsMedianShape` | main.py:53-58 | on a non-negative box the derived side is the median's proportion truncated to whole pixels: `h <= w/median < h+1` (landscape), `w <= h*median < w+1` (otherwise) |
| `Collage.ResizePass` | main.py:60-67 | the survivors are exactly the successful resizes of all paths, in input order |
| `Collage.NoSurvivorsIff` | main.py:61-71 | the second abort happens exactly when every path failed in the resize pass |
| `Collage.SurvivorCount` | main.py:61-67 | the number of survivors is the number of paths whose resize succeeded |
| `Grid.MaxOf` | main.py:77-78 | the maximum is one of the values and no value exceeds it |
| `Grid.CellWidth` | main.py:77 | no survivor is wider than a cell, and some survivor is exactly as wide |
| `Grid.CellHeight` | main.py:78 | no survivor is taller than a cell, and some survivor is exactly as tall |
| `Grid.CellOf` | main.py:87-88 | image `i` goes to the unique `(row, col)` with `col < cols` and `i = row*cols + col` |
| `Grid.PlaceAt` | main.py:87-90 | image `i` is pasted at its own size; in cell `(i // cols, i % cols)` its right (bottom) margin equals its left (top) margin or exceeds it by one pixel |
| `Grid.CentredInCell` | main.py:86-90 | an image no larger than its cell lies inside that cell, and its far margin equals its near margin or exceeds it by one pixel, on both axes |
| `Grid.PlacedInsideCanvas` | main.py:81-90 | for `i < n <= cols*rows` the image lies whole inside the `cols*max_w` x `rows*max_h` canvas |
| `Grid.RowMajor` | main.py:86-88 | a later index goes to a later row, or to the same row and a later column; distinct images get distinct cells |
| `Grid.NoOverlap` | main.py:86-91 | two distinct images never share a pixel |
| `Raster.Canvas.constructor` | main.py:83 | a new canvas has the given size and background and no pastes |
| `Raster.Canvas.Paste` | main.py:91 | a paste appends the rectangle at `(x, y)` of the image's size and changes nothing else |
| `Collage.PasteAll` | main.py:86-91 | after the loop the canvas holds one paste per image, in order, image `i` at its centred position in cell `(i // cols, i % cols)` |
| `Collage.Compose` | main.py:74-91 | the composed collage keeps the given median, box and images and follows every composition rule: selected layout, max-size cells, a white `cols*max_w` x `rows*max_h` canvas, centred row-major pastes |
| `Collage.ComposedIsSafe` | main.py:76-91 | in a composed collage every image lies inside the canvas and inside its own cell, and no two images overlap |
| `Collage.NineEqualImages` | main.py:74-82 | nine images of one size give a 3 x 3 grid of cells of that size, so a canvas three images wide and three high |
| `Collage.CreateCollage` | main.py:29-93 | aborts with no canvas exactly when no ratio was collected; aborts when no image survives the resize into the median's box; otherwise the collage uses the median and box of the batch, holds exactly the survivors, uses the selected layout, max-size cells and a white canvas, and pastes survivor `i` centred in cell `(i // cols, i % cols)` with every image inside the canvas and inside its own cell, and no overlap |

## Left out

- The imaging library: decoding in `Image.open`, `thumbnail` with LANCZOS resampling, pixel
  content, `Image.new`'s buffer and `paste`'s pixel copy. These are foreign code. Image sizes and
  success or failure are inputs (main.py:37, 63-64, 83, 91).
- How `thumbnail` picks a size inside the box. The model takes the resized size as given, so cell
  sizes are only what the survivors' sizes make them.
- Encoding and writing the output file (`save` with quality and `subsampling=0`, main.py:93). A
  failure of that write is not modelled. `Saved` means the canvas was composed.
- Exceptions as control flow. A failed open, a zero-height division (main.py:39) or a failed
  resize is a `None` outcome. Closing handles (`with`) is not modelled.
- The command line (argparse defaults 3840 x 2160, `collage.jpg`, quality 95) and `glob`
  expansion (main.py:96-105). These are I/O plumbing.
- Diagnostic `print`s (main.py:41, 45, 70, 94).
- Floating point. Ratios, the median, scores and `16/9` are exact rationals. `math.ceil(n/c)` is
  the exact integer ceiling. `int()` is exact truncation. Python's binary floats could in principle
  break a score tie differently, or round a box side differently at an exact boundary.
- Layout.CalculateLayout: the `real` scores are exact, so the first-minimum property is stated for
  exact arithmetic, not for IEEE doubles.
- Thumbnail.ThumbBoxKeepsMedianShape: the one-pixel proportion bound is stated only when the fixed
  side is non-negative. That is the case for the defaults and any non-negative maximum.
  `Thumbnail.ThumbBox` covers negative maxima.
