/** The thumbnail box shared by every image of a batch, derived once from the
    batch's median aspect ratio: a landscape-leaning batch gets a box at most
    800 wide, any other batch a box at most 600 high, and the other side
    follows the median's proportions, truncated to whole pixels. */
module Thumbnail {

  /** The widest box a landscape-leaning batch gets. */
  const LandscapeWidth: int := 800
  /** The tallest box a portrait-leaning or square batch gets. */
  const PortraitHeight: int := 600

  /** The bound (width, height) every resized image must fit. */
  datatype Box = Box(w: int, h: int)

  function Min(a: int, b: int): int
  {
    if a <= b then a else b
  }

  /** Conversion of a number to an integer by truncation toward zero. */
  function Trunc(x: real): (n: int)
    ensures 0.0 <= x ==> 0 <= n && n as real <= x < n as real + 1.0
    ensures x < 0.0 ==> n <= 0 && x <= n as real < x + 1.0
  {
    if x >= 0.0 then x.Floor else -((-x).Floor)
  }

  /** The box for a batch whose median aspect ratio (width / height) is
      `median`. The fixed side is the capped maximum; the derived side never
      exceeds it in size and has its sign. */
  function ThumbBox(median: real, maxWidth: int, maxHeight: int): (b: Box)
    ensures median > 1.0 ==>
      b.w == Min(LandscapeWidth, maxWidth) &&
      (b.w >= 0 ==> 0 <= b.h <= b.w) && (b.w < 0 ==> b.w <= b.h <= 0)
    ensures median <= 1.0 ==> b.h == Min(PortraitHeight, maxHeight)
    ensures 0.0 <= median <= 1.0 ==>
      (b.h >= 0 ==> 0 <= b.w <= b.h) && (b.h < 0 ==> b.h <= b.w <= 0)
  {
    if median > 1.0 then
      var w := Min(LandscapeWidth, maxWidth);
      LandscapeHeight(w, median);
      Box(w, Trunc(w as real / median))
    else
      var h := Min(PortraitHeight, maxHeight);
      assert 0.0 <= median ==> var w := Trunc(h as real * median);
        (h >= 0 ==> 0 <= w <= h) && (h < 0 ==> h <= w <= 0) by {
        if 0.0 <= median {
          PortraitWidth(h, median);
        }
      }
      Box(Trunc(h as real * median), h)
  }

  /** Dividing by a ratio above 1 moves a number toward zero without
      crossing it. */
  lemma QuotientBounds(w: real, m: real)
    requires m > 1.0
    ensures w >= 0.0 ==> 0.0 <= w / m <= w
    ensures w < 0.0 ==> w <= w / m <= 0.0
  {
    var q := w / m;
    DivMul(w, m);
    assert q * m - q == q * (m - 1.0);
    if w >= 0.0 {
      assert q >= 0.0;
      ScaleLe(0.0, q, m - 1.0);
    } else {
      assert q < 0.0;
      ScaleLe(q, 0.0, m - 1.0);
    }
  }

  /** Multiplying by a ratio in [0, 1] moves a number toward zero without
      crossing it. */
  lemma ProductBounds(h: real, m: real)
    requires 0.0 <= m <= 1.0
    ensures h >= 0.0 ==> 0.0 <= h * m <= h
    ensures h < 0.0 ==> h <= h * m <= 0.0
  {
    assert h - h * m == h * (1.0 - m);
    if h >= 0.0 {
      assert h * (1.0 - m) >= 0.0;
    } else {
      assert h * (1.0 - m) <= 0.0;
    }
  }

  /** Truncating a number that lies between 0 and the integer `bound`
      gives an integer between 0 and `bound`. */
  lemma TruncWithin(x: real, bound: int)
    requires bound >= 0 ==> 0.0 <= x <= bound as real
    requires bound < 0 ==> bound as real <= x <= 0.0
    ensures bound >= 0 ==> 0 <= Trunc(x) <= bound
    ensures bound < 0 ==> bound <= Trunc(x) <= 0
  {
  }

  /** The height of a landscape box never exceeds its width in size and has
      the same sign. */
  lemma LandscapeHeight(w: int, median: real)
    requires median > 1.0
    ensures var h := Trunc(w as real / median);
      (w >= 0 ==> 0 <= h <= w) && (w < 0 ==> w <= h <= 0)
  {
    QuotientBounds(w as real, median);
    TruncWithin(w as real / median, w);
  }

  /** The width of a portrait or square box never exceeds its height in size
      and has the same sign. */
  lemma PortraitWidth(h: int, median: real)
    requires 0.0 <= median <= 1.0
    ensures var w := Trunc(h as real * median);
      (h >= 0 ==> 0 <= w <= h) && (h < 0 ==> h <= w <= 0)
  {
    ProductBounds(h as real, median);
    TruncWithin(h as real * median, h);
  }

  /** `x <= y` scales by a positive factor. */
  lemma ScaleLe(x: real, y: real, m: real)
    requires x <= y && m > 0.0
    ensures x * m <= y * m
  {
    assert y * m - x * m == (y - x) * m;
  }

  lemma DivMul(w: real, m: real)
    requires m != 0.0
    ensures (w / m) * m == w
  {
  }

  /** On a non-negative box the derived side keeps the median's proportions
      to within one pixel: height <= width / median < height + 1 for a
      landscape box, width <= height * median < width + 1 otherwise. */
  lemma ThumbBoxKeepsMedianShape(median: real, maxWidth: int, maxHeight: int)
    requires median >= 0.0
    ensures var b := ThumbBox(median, maxWidth, maxHeight);
      median > 1.0 && b.w >= 0 ==>
        b.h as real <= b.w as real / median < b.h as real + 1.0
    ensures var b := ThumbBox(median, maxWidth, maxHeight);
      median <= 1.0 && b.h >= 0 ==>
        b.w as real <= b.h as real * median < b.w as real + 1.0
  {
    var b := ThumbBox(median, maxWidth, maxHeight);
    if median > 1.0 {
      var w := Min(LandscapeWidth, maxWidth);
      assert b == Box(w, Trunc(w as real / median));
      if w >= 0 {
        QuotientBounds(w as real, median);
      }
    } else {
      var h := Min(PortraitHeight, maxHeight);
      assert b == Box(Trunc(h as real * median), h);
      if h >= 0 {
        ProductBounds(h as real, median);
      }
    }
  }
}
