/** The layout selector: for a number of images, the grid shape (columns,
    rows) that minimises a weighted cost of empty cells and of distance from
    a 16:9 grid, scanning column counts in increasing order and keeping the
    first strict minimum. Scores are exact rationals (`real`). */
module Layout {
  import opened Common

  /** A grid of `cols` columns and `rows` rows. */
  datatype GridShape = GridShape(cols: nat, rows: nat)

  /** The target aspect ratio of the grid, columns per row. */
  const TargetAspect: real := 16.0 / 9.0

  function Abs(x: real): real
  {
    if x < 0.0 then -x else x
  }

  /** ceil(n / c): the number of rows that `n` images need in `c` columns,
      the fewest that hold them all. */
  function RowsFor(n: nat, c: nat): (rows: nat)
    requires c >= 1
    ensures c * rows >= n
    ensures c * (rows - 1) < n
  {
    var q := (n + c - 1) / c;
    assert n + c - 1 == c * q + (n + c - 1) % c;
    q
  }

  /** Empty cells left over when `n` images fill `c` columns: fewer than one
      row's worth, and none exactly when `c` divides `n`. */
  function Waste(n: nat, c: nat): (w: nat)
    requires c >= 1
    ensures w < c
    ensures w == 0 <==> n % c == 0
  {
    FullRowsIff(n, c);
    c * RowsFor(n, c) - n
  }

  /** The rows are exactly full when `c` divides `n`. */
  lemma FullRowsIff(n: nat, c: nat)
    requires c >= 1
    ensures c * RowsFor(n, c) == n <==> n % c == 0
  {
    var rows: int, d: int := RowsFor(n, c), n / c;
    if c * rows == n {
      DivModUnique(n, c, rows);
    }
    if n % c == 0 {
      assert n == c * d + n % c;
      assert c * (rows - d) == c * rows - n;
      assert c * (rows - 1) == c * rows - c;
      SmallMultiple(c, rows - d);
    }
  }

  /** `q` is the quotient of `n` by `c` when `c * q == n`. */
  lemma DivModUnique(n: nat, c: nat, q: nat)
    requires c >= 1 && c * q == n
    ensures n / c == q && n % c == 0
  {
    var d := n / c;
    assert n == c * d + n % c;
    assert c * (q - d) == n % c;
    SmallMultiple(c, q - d);
  }

  /** The only multiple of `c >= 1` in `[0, c)` is `c * 0`. */
  lemma SmallMultiple(c: int, k: int)
    requires c >= 1 && 0 <= c * k < c
    ensures k == 0
  {
    var lo := if k >= 1 then 1 else k;
    var hi := if k >= 1 then k else 0;
    MulLe(lo, hi, c);
  }

  /** The cost of `c` columns for `n` images: 0.7 per empty cell plus 0.3
      times the distance of c/rows from 16/9. */
  function Score(n: nat, c: nat): (s: real)
    requires 1 <= c && 1 <= n
    ensures s >= 0.7 * (Waste(n, c) as real)
    ensures s == 0.0 <==>
      Waste(n, c) == 0 && (c as real) / (RowsFor(n, c) as real) == TargetAspect
  {
    var rows := RowsFor(n, c);
    (Waste(n, c) as real) * 0.7 + Abs((c as real) / (rows as real) - TargetAspect) * 0.3
  }

  /** `cols` is the column count the scan returns for `n` images: a minimum
      of the score over 1..n that no smaller column count ties. */
  predicate IsBestLayout(n: nat, cols: nat)
  {
    1 <= cols <= n &&
    (forall c :: 1 <= c <= n ==> Score(n, cols) <= Score(n, c)) &&
    (forall c :: 1 <= c < cols ==> Score(n, cols) < Score(n, c))
  }

  /** The scan over column counts 1..numImages. `None` (no layout) only when
      there are no images, since the first candidate always beats the
      initial infinite minimum. */
  method CalculateLayout(numImages: nat) returns (best: Option<GridShape>)
    ensures best.None? <==> numImages == 0
    ensures best.Some? ==> IsBestLayout(numImages, best.value.cols)
    ensures best.Some? ==> best.value.rows == RowsFor(numImages, best.value.cols)
    ensures best.Some? ==>
      var g := best.value;
      1 <= g.cols <= numImages && 1 <= g.rows <= numImages &&
      g.cols * g.rows >= numImages && g.cols * g.rows - numImages < g.cols
  {
    best := None;
    // `best == None` plays the part of the initial `min_waste = inf`
    var minScore: real := 0.0;
    for cols := 1 to numImages + 1
      invariant best.None? <==> cols == 1
      invariant best.Some? ==>
        1 <= best.value.cols < cols && best.value.rows == RowsFor(numImages, best.value.cols) &&
        minScore == Score(numImages, best.value.cols)
      invariant best.Some? ==> forall c :: 1 <= c < cols ==> minScore <= Score(numImages, c)
      invariant best.Some? ==> forall c :: 1 <= c < best.value.cols ==> minScore < Score(numImages, c)
    {
      var rows := (numImages + cols - 1) / cols;
      var waste := cols * rows - numImages;
      var aspect := (cols as real) / (rows as real);
      var ratioDiff := Abs(aspect - TargetAspect);
      var score := (waste as real) * 0.7 + ratioDiff * 0.3;
      assert rows == RowsFor(numImages, cols) && score == Score(numImages, cols);
      if best.None? || score < minScore {
        minScore := score;
        best := Some(GridShape(cols, rows));
      }
    }
    if best.Some? {
      RowsBounds(numImages, best.value.cols);
    }
  }

  /** In 1..n columns, n >= 1 images need between 1 and n rows, and leave
      fewer empty cells than there are columns. */
  lemma RowsBounds(n: nat, c: nat)
    requires 1 <= c <= n
    ensures 1 <= RowsFor(n, c) <= n
    ensures c * RowsFor(n, c) - n < c
  {
    var rows := RowsFor(n, c);
    assert rows >= 1;
    MulLe(1, c, rows - 1);
    assert c * (rows - 1) == c * rows - c;
  }

  /** The scan is deterministic: at most one column count is the best. */
  lemma BestLayoutUnique(n: nat, c1: nat, c2: nat)
    requires IsBestLayout(n, c1) && IsBestLayout(n, c2)
    ensures c1 == c2
  {
    assert Score(n, c1) <= Score(n, c2) && Score(n, c2) <= Score(n, c1);
  }

  /** A single image gets a 1 x 1 grid. */
  lemma LayoutOfOne()
    ensures IsBestLayout(1, 1) && RowsFor(1, 1) == 1
  {
  }

  /** Four images: two columns of two rows (score 0.2333...) beat one column
      (0.4583...), three columns (two rows with two empty cells, 1.4833...)
      and one row (0.6666...). */
  lemma LayoutOfFour()
    ensures IsBestLayout(4, 2) && RowsFor(4, 2) == 2
  {
    assert Score(4, 1) == 0.3 * (16.0 / 9.0 - 0.25);
    assert Score(4, 2) == 0.3 * (16.0 / 9.0 - 1.0);
    assert Score(4, 3) == 1.4 + 0.3 * (16.0 / 9.0 - 1.5);
    assert Score(4, 4) == 0.3 * (4.0 - 16.0 / 9.0);
    forall c | 1 <= c <= 4 ensures Score(4, 2) <= Score(4, c) {
      assert c == 1 || c == 2 || c == 3 || c == 4;
    }
  }

  /** Nine images: a 3 x 3 grid. */
  lemma LayoutOfNine()
    ensures IsBestLayout(9, 3) && RowsFor(9, 3) == 3
  {
    assert Score(9, 3) == 0.3 * (16.0 / 9.0 - 1.0);
    assert Score(9, 1) == 0.3 * (16.0 / 9.0 - 1.0 / 9.0);
    assert Score(9, 2) == 0.7 + 0.3 * (16.0 / 9.0 - 0.4);
    forall c | 1 <= c <= 9 ensures Score(9, 3) <= Score(9, c) {
      if c == 1 {
      } else if c == 2 {
      } else if c == 3 {
      } else if c == 9 {
        assert Score(9, 9) == 0.3 * (9.0 - 16.0 / 9.0);
      } else {
        assert RowsFor(9, c) == 3 || RowsFor(9, c) == 2;
        assert Waste(9, c) >= 1;
      }
    }
  }
}
