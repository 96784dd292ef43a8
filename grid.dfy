/** Placement of the resized images on the canvas: every cell is as wide as
    the widest image and as tall as the tallest, image `i` goes to the cell
    at row i / cols and column i % cols (row-major), and is centred in it,
    rounding the offsets down. */
module Grid {
  import opened Common

  /** A grid position. */
  datatype Cell = Cell(row: nat, col: nat)

  /** Where an image of size (w, h) is pasted: its top-left corner (x, y). */
  datatype Placement = Placement(x: int, y: int, w: nat, h: nat)

  /** The largest of a non-empty list. */
  function MaxOf(xs: seq<nat>): (m: nat)
    requires xs != []
    ensures m in xs
    ensures forall i :: 0 <= i < |xs| ==> xs[i] <= m
  {
    if |xs| == 1 then xs[0]
    else
      var rest := MaxOf(xs[1..]);
      if xs[0] >= rest then xs[0] else rest
  }

  /** The cell width: no image is wider, and some image is exactly as wide. */
  function CellWidth(images: seq<Dim>): (cw: nat)
    requires images != []
    ensures forall i :: 0 <= i < |images| ==> images[i].w <= cw
    ensures exists i :: 0 <= i < |images| && images[i].w == cw
  {
    var ws := seq(|images|, i requires 0 <= i < |images| => images[i].w);
    assert forall i :: 0 <= i < |images| ==> ws[i] == images[i].w;
    MaxOf(ws)
  }

  /** The cell height: no image is taller, and some image is exactly as tall. */
  function CellHeight(images: seq<Dim>): (ch: nat)
    requires images != []
    ensures forall i :: 0 <= i < |images| ==> images[i].h <= ch
    ensures exists i :: 0 <= i < |images| && images[i].h == ch
  {
    var hs := seq(|images|, i requires 0 <= i < |images| => images[i].h);
    assert forall i :: 0 <= i < |images| ==> hs[i] == images[i].h;
    MaxOf(hs)
  }

  /** The cell of the `i`-th image in a grid of `cols` columns: the unique
      (row, col) with col < cols and i == row * cols + col. */
  function CellOf(i: nat, cols: nat): (c: Cell)
    requires cols >= 1
    ensures c.col < cols && i == c.row * cols + c.col
  {
    Cell(i / cols, i % cols)
  }

  /** Where the `i`-th image, of size `d`, is pasted on a grid of `cols`
      columns of `cellW` x `cellH` cells. Python's `//` by 2 rounds down, as
      Dafny's `/` by a positive divisor does. */
  function PlaceAt(i: nat, cols: nat, cellW: nat, cellH: nat, d: Dim): (p: Placement)
    requires cols >= 1
    ensures p.w == d.w && p.h == d.h
    ensures var c := CellOf(i, cols);
      var left, right := p.x - c.col * cellW, cellW - d.w - (p.x - c.col * cellW);
      var top, bottom := p.y - c.row * cellH, cellH - d.h - (p.y - c.row * cellH);
      (right == left || right == left + 1) && (bottom == top || bottom == top + 1)
  {
    var c := CellOf(i, cols);
    Placement(c.col * cellW + (cellW - d.w) / 2, c.row * cellH + (cellH - d.h) / 2, d.w, d.h)
  }

  /** Two pasted rectangles share no pixel. */
  predicate Disjoint(p: Placement, q: Placement)
  {
    p.x + p.w <= q.x || q.x + q.w <= p.x || p.y + p.h <= q.y || q.y + q.h <= p.y
  }

  /** The rectangle lies within a canvas of `width` x `height` pixels. */
  predicate Inside(p: Placement, width: int, height: int)
  {
    0 <= p.x && p.x + p.w <= width && 0 <= p.y && p.y + p.h <= height
  }

  /** The rectangle lies within the cell `c` of a grid of `cellW` x `cellH` cells. */
  predicate WithinCell(p: Placement, c: Cell, cellW: nat, cellH: nat)
  {
    c.col * cellW <= p.x && p.x + p.w <= (c.col + 1) * cellW &&
    c.row * cellH <= p.y && p.y + p.h <= (c.row + 1) * cellH
  }

  /** An image no larger than its cell lies inside the cell, centred: the
      margin after it (right, below) equals the margin before it (left, above)
      or exceeds it by one pixel. */
  lemma CentredInCell(i: nat, cols: nat, cellW: nat, cellH: nat, d: Dim)
    requires cols >= 1 && d.w <= cellW && d.h <= cellH
    ensures WithinCell(PlaceAt(i, cols, cellW, cellH, d), CellOf(i, cols), cellW, cellH)
    ensures var c := CellOf(i, cols); var p := PlaceAt(i, cols, cellW, cellH, d);
      var left, right := p.x - c.col * cellW, (c.col + 1) * cellW - (p.x + p.w);
      var top, bottom := p.y - c.row * cellH, (c.row + 1) * cellH - (p.y + p.h);
      (right == left || right == left + 1) && (bottom == top || bottom == top + 1)
  {
    var c := CellOf(i, cols);
    assert (c.col + 1) * cellW == c.col * cellW + cellW;
    assert (c.row + 1) * cellH == c.row * cellH + cellH;
  }

  /** For i < n <= cols * rows, the `i`-th image lies inside the
      cols*cellW x rows*cellH canvas: nothing is clipped. */
  lemma PlacedInsideCanvas(i: nat, n: nat, cols: nat, rows: nat, cellW: nat, cellH: nat, d: Dim)
    requires cols >= 1 && i < n <= cols * rows
    requires d.w <= cellW && d.h <= cellH
    ensures Inside(PlaceAt(i, cols, cellW, cellH, d), cols * cellW, rows * cellH)
  {
    var c := CellOf(i, cols);
    CentredInCell(i, cols, cellW, cellH, d);
    assert c.row < rows by {
      if c.row >= rows {
        MulLe(rows, c.row, cols);
      }
    }
    MulLe(c.col + 1, cols, cellW);
    MulLe(c.row + 1, rows, cellH);
    assert 0 <= c.col * cellW && 0 <= c.row * cellH;
  }

  /** Images are placed in input order, row-major: a later index has a later
      row, or the same row and a later column. So distinct images get
      distinct cells. */
  lemma RowMajor(i: nat, j: nat, cols: nat)
    requires cols >= 1 && i < j
    ensures var a, b := CellOf(i, cols), CellOf(j, cols);
      a.row < b.row || (a.row == b.row && a.col < b.col)
  {
    var a, b := CellOf(i, cols), CellOf(j, cols);
    assert (b.row + 1) * cols == b.row * cols + cols;
    if b.row < a.row {
      MulLe(b.row + 1, a.row, cols);
    }
  }

  /** Distinct images, each no larger than a cell, never overlap. */
  lemma NoOverlap(i: nat, j: nat, cols: nat, cellW: nat, cellH: nat, di: Dim, dj: Dim)
    requires cols >= 1 && i != j
    requires di.w <= cellW && di.h <= cellH && dj.w <= cellW && dj.h <= cellH
    ensures Disjoint(PlaceAt(i, cols, cellW, cellH, di), PlaceAt(j, cols, cellW, cellH, dj))
  {
    var a, b := CellOf(i, cols), CellOf(j, cols);
    CentredInCell(i, cols, cellW, cellH, di);
    CentredInCell(j, cols, cellW, cellH, dj);
    if i < j {
      RowMajor(i, j, cols);
    } else {
      RowMajor(j, i, cols);
    }
    if a.row < b.row {
      MulLe(a.row + 1, b.row, cellH);
    } else if b.row < a.row {
      MulLe(b.row + 1, a.row, cellH);
    } else if a.col < b.col {
      MulLe(a.col + 1, b.col, cellW);
    } else {
      MulLe(b.col + 1, a.col, cellW);
    }
  }
}
