/** The collage builder. An inspection pass records the aspect ratio of every
    input image that opens; an empty batch aborts. The median ratio fixes one
    thumbnail box for the batch. A resize pass re-opens EVERY input path
    (not only those the inspection pass accepted) and keeps the images the
    imaging library manages to shrink into the box; if none survive, the
    build aborts. The survivors are laid out row-major on a white canvas of
    cols x rows cells, each as large as the largest survivor, centred in
    their cells.

    The imaging library is outside the model: the inspection pass gets, per
    path, the image size or `None` when opening raised; the resize pass gets
    a function from (path index, box) to the resized size or `None` when
    opening or resizing raised. */
module Collage {
  import opened Common
  import opened Layout
  import opened Median
  import opened Thumbnail
  import opened Grid
  import opened Raster

  /** The ratio the inspection pass records for one path: none when the
      image could not be opened, or when its height is zero (the division
      raises, and the exception is caught like a failed open). */
  function RatioOf(probe: Option<Dim>): (r: Option<real>)
    ensures r.Some? <==> probe.Some? && probe.value.h > 0
    ensures r.Some? ==> r.value >= 0.0 && r.value * (probe.value.h as real) == probe.value.w as real
  {
    if probe.Some? && probe.value.h > 0 then Some(probe.value.w as real / probe.value.h as real)
    else None
  }

  function RatioOutcomes(probes: seq<Option<Dim>>): seq<Option<real>>
  {
    seq(|probes|, i requires 0 <= i < |probes| => RatioOf(probes[i]))
  }

  /** The aspect ratios the inspection pass collects, in input order. */
  function AspectRatios(probes: seq<Option<Dim>>): seq<real>
  {
    Kept(RatioOutcomes(probes))
  }

  /** What the resize pass gets for each of the first `count` paths. */
  function ResizeOutcomes(resizeAt: (nat, Box) -> Option<Dim>, box: Box, count: nat): seq<Option<Dim>>
  {
    seq(count, i requires 0 <= i < count => resizeAt(i, box))
  }

  /** The resized images that survive the resize pass, in input order. */
  function Survivors(resizeAt: (nat, Box) -> Option<Dim>, box: Box, count: nat): seq<Dim>
  {
    Kept(ResizeOutcomes(resizeAt, box, count))
  }

  /** The batch has no usable image exactly when every path failed to open
      or has zero height. */
  lemma NoAspectRatiosIff(probes: seq<Option<Dim>>)
    ensures AspectRatios(probes) == [] <==>
      forall i :: 0 <= i < |probes| ==> probes[i].None? || probes[i].value.h == 0
  {
    var outs := RatioOutcomes(probes);
    KeptEmptyIff(outs);
    assert forall i :: 0 <= i < |probes| ==> outs[i] == RatioOf(probes[i]);
  }

  /** Every collected ratio is the non-negative ratio w / h of some input. */
  lemma AspectRatiosFromInputs(probes: seq<Option<Dim>>, r: real)
    requires r in AspectRatios(probes)
    ensures exists i :: 0 <= i < |probes| && probes[i].Some? && probes[i].value.h > 0 &&
                        r == probes[i].value.w as real / probes[i].value.h as real
    ensures r >= 0.0
  {
    var outs := RatioOutcomes(probes);
    KeptMembers(outs, r);
    var i :| 0 <= i < |outs| && outs[i] == Some(r);
    assert outs[i] == RatioOf(probes[i]);
  }

  /** Nothing survives the resize pass exactly when every path failed in it. */
  lemma NoSurvivorsIff(resizeAt: (nat, Box) -> Option<Dim>, box: Box, count: nat)
    ensures Survivors(resizeAt, box, count) == [] <==>
      forall i: nat :: i < count ==> resizeAt(i, box).None?
  {
    var outs := ResizeOutcomes(resizeAt, box, count);
    KeptEmptyIff(outs);
    assert forall i :: 0 <= i < count ==> outs[i] == resizeAt(i, box);
  }

  /** Each path that survives the resize pass contributes exactly one image:
      with 5 paths of which 2 fail, the collage holds 3 images. */
  lemma SurvivorCount(resizeAt: (nat, Box) -> Option<Dim>, box: Box, count: nat)
    ensures |Survivors(resizeAt, box, count)| == |set i: nat | i < count && resizeAt(i, box).Some?|
  {
    var outs := ResizeOutcomes(resizeAt, box, count);
    KeptCount(outs);
    assert (set i | 0 <= i < |outs| && outs[i].Some?) == (set i: nat | i < count && resizeAt(i, box).Some?);
  }

  /** First pass: one attempt per path, a ratio appended on success. */
  method InspectionPass(probes: seq<Option<Dim>>) returns (ratios: seq<real>)
    ensures ratios == AspectRatios(probes)
  {
    ghost var outs := RatioOutcomes(probes);
    ratios := [];
    for i := 0 to |probes|
      invariant ratios == Kept(outs[..i])
    {
      KeptStep(outs, i);
      match probes[i]
      case None =>
        continue;
      case Some(d) =>
        if d.h == 0 {
          continue;
        }
        ratios := ratios + [d.w as real / d.h as real];
    }
    assert outs[..|probes|] == outs;
  }

  /** Second pass: every path again, a resized size appended on success. */
  method ResizePass(resizeAt: (nat, Box) -> Option<Dim>, box: Box, count: nat) returns (images: seq<Dim>)
    ensures images == Survivors(resizeAt, box, count)
  {
    ghost var outs := ResizeOutcomes(resizeAt, box, count);
    images := [];
    for i := 0 to count
      invariant images == Kept(outs[..i])
    {
      KeptStep(outs, i);
      var resized := resizeAt(i, box);
      if resized.None? {
        continue;
      }
      images := images + [resized.value];
    }
    assert outs[..count] == outs;
  }

  /** A finished collage: the batch median and box it was built with, the
      surviving images, the grid, the cell and canvas sizes, the background
      and every paste in order. */
  datatype Collage = Collage(
    median: real, box: Box, images: seq<Dim>, shape: GridShape,
    cellW: nat, cellH: nat, width: nat, height: nat, background: Rgb,
    pastes: seq<Placement>)

  /** How a build ends: one of the two aborts (no file written), or a saved collage. */
  datatype Outcome = NoValidImages | NoImagesToProcess | Saved(collage: Collage)

  /** Where each of `images` is pasted, in order. */
  function Placements(images: seq<Dim>, cols: nat, cellW: nat, cellH: nat): (ps: seq<Placement>)
    requires cols >= 1
  {
    seq(|images|, i requires 0 <= i < |images| => PlaceAt(i, cols, cellW, cellH, images[i]))
  }

  /** The composition rules: the grid is the selected layout for the
      survivors, cells are as large as the largest survivor, the canvas is
      cols x rows cells on white, and survivor `i` is pasted centred in cell
      (i / cols, i % cols). */
  predicate Composed(c: Collage)
  {
    c.images != [] &&
    IsBestLayout(|c.images|, c.shape.cols) && c.shape.rows == RowsFor(|c.images|, c.shape.cols) &&
    c.cellW == CellWidth(c.images) && c.cellH == CellHeight(c.images) &&
    c.width == c.shape.cols * c.cellW && c.height == c.shape.rows * c.cellH &&
    c.background == White &&
    c.pastes == Placements(c.images, c.shape.cols, c.cellW, c.cellH)
  }

  /** In a composed collage every image is pasted whole inside the canvas,
      within its own cell, and no two images overlap. */
  lemma ComposedIsSafe(c: Collage)
    requires Composed(c)
    ensures forall i :: 0 <= i < |c.pastes| ==> Inside(c.pastes[i], c.width, c.height)
    ensures forall i :: 0 <= i < |c.pastes| ==>
      WithinCell(c.pastes[i], CellOf(i, c.shape.cols), c.cellW, c.cellH)
    ensures forall i, j :: 0 <= i < |c.pastes| && 0 <= j < |c.pastes| && i != j ==>
      Disjoint(c.pastes[i], c.pastes[j])
  {
    var n, cols := |c.images|, c.shape.cols;
    forall i | 0 <= i < n
      ensures Inside(c.pastes[i], c.width, c.height)
      ensures WithinCell(c.pastes[i], CellOf(i, cols), c.cellW, c.cellH)
    {
      PlacedInsideCanvas(i, n, cols, c.shape.rows, c.cellW, c.cellH, c.images[i]);
      CentredInCell(i, cols, c.cellW, c.cellH, c.images[i]);
    }
    forall i, j | 0 <= i < n && 0 <= j < n && i != j ensures Disjoint(c.pastes[i], c.pastes[j]) {
      NoOverlap(i, j, cols, c.cellW, c.cellH, c.images[i], c.images[j]);
    }
  }

  /** Nine images of one size make a 3 x 3 grid of cells of exactly that
      size: the canvas is three images wide and three high. */
  lemma NineEqualImages(c: Collage, d: Dim)
    requires Composed(c) && |c.images| == 9
    requires forall i :: 0 <= i < 9 ==> c.images[i] == d
    ensures c.shape == GridShape(3, 3)
    ensures c.cellW == d.w && c.cellH == d.h
    ensures c.width == 3 * d.w && c.height == 3 * d.h
  {
    LayoutOfNine();
    BestLayoutUnique(9, c.shape.cols, 3);
  }

  /** Sorts the collected ratios ascending and takes the one at index
      len / 2. */
  method MedianAspect(ratios: seq<real>) returns (median: real)
    requires ratios != []
    ensures IsMedian(ratios, median)
  {
    var sorted := new real[|ratios|](i requires 0 <= i < |ratios| => ratios[i]);
    assert sorted[..] == ratios;
    SortAscending(sorted);
    median := sorted[sorted.Length / 2];
    MedianOfSorted(ratios, sorted[..]);
  }

  /** The paste loop: image `i` goes centred into cell (i // cols, i % cols). */
  method PasteAll(canvas: Canvas, images: seq<Dim>, cols: nat, cellW: nat, cellH: nat)
    requires cols >= 1 && canvas.pastes == []
    modifies canvas
    ensures canvas.pastes == Placements(images, cols, cellW, cellH)
  {
    for i := 0 to |images|
      invariant |canvas.pastes| == i
      invariant forall k :: 0 <= k < i ==> canvas.pastes[k] == PlaceAt(k, cols, cellW, cellH, images[k])
    {
      var row := i / cols;
      var col := i % cols;
      var x := col * cellW + (cellW - images[i].w) / 2;
      var y := row * cellH + (cellH - images[i].h) / 2;
      canvas.Paste(images[i], x, y);
    }
  }

  /** Lays out a non-empty list of survivors: the selected grid, cells as
      large as the largest survivor, a white canvas of cols x rows cells and
      one centred paste per survivor, in order. */
  method Compose(median: real, box: Box, images: seq<Dim>) returns (c: Collage)
    requires images != []
    ensures c.median == median && c.box == box && c.images == images
    ensures Composed(c)
  {
    var layout := CalculateLayout(|images|);
    var cols, rows := layout.value.cols, layout.value.rows;
    var maxW, maxH := CellWidth(images), CellHeight(images);

    var canvas := new Canvas(cols * maxW, rows * maxH, White);
    PasteAll(canvas, images, cols, maxW, maxH);

    c := Collage(median, box, images, layout.value, maxW, maxH,
                 canvas.width, canvas.height, canvas.background, canvas.pastes);
  }

  /** Builds the collage of the images at `|probes|` paths, within the
      maximum box `maxWidth` x `maxHeight`. */
  method CreateCollage(probes: seq<Option<Dim>>, resizeAt: (nat, Box) -> Option<Dim>,
                       maxWidth: int, maxHeight: int)
    returns (outcome: Outcome)
    ensures outcome.NoValidImages? <==> AspectRatios(probes) == []
    ensures outcome.NoImagesToProcess? ==>
      forall m :: IsMedian(AspectRatios(probes), m) ==>
        Survivors(resizeAt, ThumbBox(m, maxWidth, maxHeight), |probes|) == []
    ensures outcome.Saved? ==>
      var c := outcome.collage;
      IsMedian(AspectRatios(probes), c.median) &&
      c.box == ThumbBox(c.median, maxWidth, maxHeight) &&
      c.images == Survivors(resizeAt, c.box, |probes|) &&
      Composed(c)
    ensures outcome.Saved? ==>
      var c := outcome.collage;
      (forall i :: 0 <= i < |c.pastes| ==> Inside(c.pastes[i], c.width, c.height)) &&
      (forall i :: 0 <= i < |c.pastes| ==>
        WithinCell(c.pastes[i], CellOf(i, c.shape.cols), c.cellW, c.cellH)) &&
      (forall i, j :: 0 <= i < |c.pastes| && 0 <= j < |c.pastes| && i != j ==>
        Disjoint(c.pastes[i], c.pastes[j]))
  {
    var ratios := InspectionPass(probes);
    if |ratios| == 0 {
      return NoValidImages;
    }

    var median := MedianAspect(ratios);
    forall m | IsMedian(ratios, m) ensures m == median {
      MedianUnique(ratios, m, median);
    }
    var box := ThumbBox(median, maxWidth, maxHeight);

    var images := ResizePass(resizeAt, box, |probes|);
    if |images| == 0 {
      return NoImagesToProcess;
    }

    var c := Compose(median, box, images);
    ComposedIsSafe(c);
    outcome := Saved(c);
  }
}
