/**
 Which filters keep channels that are multiples of 1/255, and so lose nothing when their result
 goes through a file (image_processor/src/filter.cpp and image_processor/src/io.cpp).
 */
module Grid {
  import opened Wrappers
  import opened FilterTypes
  import opened Sums
  import opened Pictures
  import opened Blur
  import opened Filters
  import opened Bmp

  // ---------- Kernels of integers ----------

  predicate IsWhole(x: real) {
    x == x.Floor as real
  }

  /** An integer multiple of 1/255, inside the range of a channel or not. */
  predicate Multiple(x: real) {
    IsWhole(x * 255.0)
  }

  lemma WholeSum(x: real, y: real)
    requires IsWhole(x) && IsWhole(y)
    ensures IsWhole(x + y)
  {
    assert x + y == (x.Floor + y.Floor) as real;
  }

  lemma WholeProduct(x: real, y: real)
    requires IsWhole(x) && IsWhole(y)
    ensures IsWhole(x * y)
  {
    var a, b := x.Floor, y.Floor;
    var n := a * b;
    assert n as real == a as real * b as real;
    assert x * y == n as real;
  }

  lemma MultipleSum(x: real, y: real)
    requires Multiple(x) && Multiple(y)
    ensures Multiple(x + y)
  {
    hide IsWhole;
    WholeSum(x * 255.0, y * 255.0);
    assert (x + y) * 255.0 == x * 255.0 + y * 255.0;
  }

  lemma MultipleProduct(k: real, x: real)
    requires IsWhole(k) && Multiple(x)
    ensures Multiple(k * x)
  {
    hide IsWhole;
    var y := x * 255.0;
    WholeProduct(k, y);
    var (a, b) := ((k * x) * 255.0, k * y);
    assert a == b && IsWhole(b);
    assert IsWhole(a);
  }

  lemma {:induction false} SumMultiple(f: int -> real, lo: int, hi: int)
    requires forall i | lo <= i < hi :: Multiple(f(i))
    ensures Multiple(Sum(f, lo, hi))
    decreases hi - lo
  {
    hide Multiple;
    if lo < hi {
      SumMultiple(f, lo, hi - 1);
      MultipleSum(Sum(f, lo, hi - 1), f(hi - 1));
    } else {
      ZeroMultiple();
    }
  }

  lemma ZeroMultiple()
    ensures Multiple(0.0)
  {
  }

  lemma GridIsMultiple(x: real)
    ensures OnGrid(x) <==> Multiple(x) && 0.0 <= x <= 1.0
  {
    if OnGrid(x) {
      var k: Byte :| x == FromByte(k);
      assert x * 255.0 == k as real;
    }
    if Multiple(x) && 0.0 <= x <= 1.0 {
      var k: Byte := (x * 255.0).Floor;
      assert x == FromByte(k);
    }
  }

  lemma ClampOnGrid(x: real)
    requires Multiple(x)
    ensures OnGrid(Clamp(x))
  {
    GridIsMultiple(Clamp(x));
  }

  ghost predicate IntegerKernel(k: Kernel) {
    forall i, j {:trigger k[i][j]} | 0 <= i < |k| && 0 <= j < |k[i]| :: IsWhole(k[i][j])
  }

  lemma IntegerCoeff(k: Kernel, dr: int, dc: int)
    requires IntegerKernel(k)
    ensures IsWhole(CoeffAt(k)(dr, dc))
  {
    var (i, j) := (dr + MidRow(k), dc + MidCol(k));
    assert CoeffAt(k)(dr, dc) == Coeff(k, i, j);
    if 0 <= i < |k| && 0 <= j < |k[i]| { assert IsWhole(k[i][j]); }
  }

  lemma IntegerTap(k: Kernel, p: Picture, row: int, col: int, c: Channel, dr: int, dc: int)
    requires IntegerKernel(k) && ValidPicture(p) && GridPicture(p) && Inside(p, row, col)
    ensures Multiple(Tap(k, p, row, col, c)(dr, dc))
  {
    hide Multiple, OnGrid, IsWhole, CoeffAt, Source, IntegerKernel;
    IntegerCoeff(k, dr, dc);
    var s := Source(row, col, dr, dc, p.h, p.w);
    assert Inside(p, s.0, s.1) && GridPixel(At(p, s.0, s.1));
    var (a, x) := (CoeffAt(k)(dr, dc), Ch(SourcePixel(p, row, col, dr, dc), c));
    GridIsMultiple(x);
    MultipleProduct(a, x);
    assert Tap(k, p, row, col, c)(dr, dc) == a * x;
  }

  lemma IntegerWeighted(k: Kernel, p: Picture, row: int, col: int, c: Channel)
    requires IntegerKernel(k) && ValidPicture(p) && GridPicture(p) && Inside(p, row, col)
    ensures Multiple(Weighted(k, p, row, col, c))
  {
    hide Multiple, Sum, IntegerKernel, GridPicture, Tap;
    var t := Tap(k, p, row, col, c);
    var (m, n) := (MidRow(k), MidCol(k));
    var rows := RowSum(t, -n, n + 1);
    forall i ensures Multiple(rows(i)) {
      forall j ensures Multiple(t(i, j)) { IntegerTap(k, p, row, col, c, i, j); }
      SumMultiple(j => t(i, j), -n, n + 1);
    }
    SumMultiple(rows, -m, m + 1);
  }

  /** A convolution by a kernel of integers keeps the grid, borders and clamps included. */
  lemma IntegerKernelKeepsGrid(k: Kernel, p: Picture)
    requires IntegerKernel(k) && ValidPicture(p) && GridPicture(p)
    ensures GridPicture(Convolve(k, p))
  {
    hide OnGrid, Multiple, IntegerKernel, Convolve, Weighted, Clamp;
    var q := Convolve(k, p);
    forall r, c, ch | Inside(q, r, c) ensures OnGrid(Ch(At(q, r, c), ch)) {
      IntegerWeighted(k, p, r, c, ch);
      ClampOnGrid(Weighted(k, p, r, c, ch));
    }
  }

  lemma SharpenIsInteger()
    ensures IntegerKernel(SHARPEN)
  {
  }

  // ---------- Blurs ----------

  lemma OneEntry(g: Weights)
    requires Averaging(g) && |g| == 1
    ensures Offset(g)(0) == 1.0 && Mid(g) == 0
  {
    SumOfOne(Entry(g));
    assert Mid(g) == 0 && Offset(g)(0) == Entry(g)(0 + Mid(g)) == Total(g);
  }

  lemma SumOfOne(f: int -> real)
    ensures Sum(f, 0, 1) == f(0)
  {
    assert Sum(f, 0, 0) == 0.0;
  }

  /** A blur with a single weight changes nothing. */
  lemma SmallBlurIsIdentity(g: Weights, p: Picture)
    requires ValidPicture(p) && Unit(p) && Averaging(g) && |g| == 1
    ensures Blurred(g, p) == p
  {
    hide Sum, Convolve, Offset, Averaging, Unit;
    OneEntry(g);
    var q := Convolve(RowKernel(g), p);
    forall r, c | Inside(p, r, c) ensures At(Blurred(g, p), r, c) == At(p, r, c) {
      forall ch ensures Ch(At(Blurred(g, p), r, c), ch) == Ch(At(p, r, c), ch) {
        RowPassValue(g, p, r, c, ch);
        ColumnPassValue(g, q, r, c, ch);
        SumOfOne(AlongRow(g, p, r, c, ch));
        SumOfOne(AlongColumn(g, q, r, c, ch));
      }
      PixelsEqual(At(Blurred(g, p), r, c), At(p, r, c));
    }
    PicturesEqual(Blurred(g, p), p);
  }

  lemma {:induction false} SumAtLeast(g: Weights, n: nat, i: nat)
    requires i < n <= |g| && forall j | 0 <= j < |g| :: g[j] >= 0.0
    ensures Sum(Entry(g), 0, n) >= g[i]
    decreases n
  {
    if i < n - 1 {
      SumAtLeast(g, n - 1, i);
    } else {
      SumZero(0, n - 1);
      SumMonotone(_ => 0.0, Entry(g), 0, n - 1);
    }
  }

  lemma {:induction false} SumAtLeastTwo(g: Weights, n: nat, i: nat, j: nat)
    requires i < j < n <= |g| && forall l | 0 <= l < |g| :: g[l] >= 0.0
    ensures Sum(Entry(g), 0, n) >= g[i] + g[j]
    decreases n
  {
    if j < n - 1 { SumAtLeastTwo(g, n - 1, i, j); } else { SumAtLeast(g, n - 1, i); }
  }

  /** One row as wide as the kernel, black but for its middle. */
  function Dot(g: Weights): (p: Picture)
    ensures ValidPicture(p) && p.h == 1 && p.w == |g|
    ensures forall c | 0 <= c < |g| :: At(p, 0, c) == if c == Mid(g) then DIM else BLACK
  {
    Picture(1, |g|, [seq(|g|, c => if c == Mid(g) then DIM else BLACK)])
  }

  const DIM := Pixel(1.0 / 255.0, 1.0 / 255.0, 1.0 / 255.0)

  lemma DotOnGrid(g: Weights)
    ensures GridPicture(Dot(g)) && Unit(Dot(g))
  {
    hide Dot;
    assert 1.0 / 255.0 == FromByte(1) && 0.0 == FromByte(0);
    assert GridPixel(DIM) && GridPixel(BLACK) && UnitPixel(DIM) && UnitPixel(BLACK);
  }

  lemma DotRow(g: Weights)
    requires Averaging(g)
    ensures Inside(Dot(g), 0, Mid(g))
    ensures Ch(At(Convolve(RowKernel(g), Dot(g)), 0, Mid(g)), Red) == g[Mid(g)] * (1.0 / 255.0)
  {
    hide Sum, Convolve, Dot, Averaging;
    AveragingIsOdd(g);
    var (p, m) := (Dot(g), Mid(g));
    DotOnGrid(g);
    RowPassValue(g, p, 0, m, Red);
    var f := AlongRow(g, p, 0, m, Red);
    forall d | -m <= d < m + 1 && d != 0 ensures f(d) == 0.0 {
      assert Line(m, d, |g|) == m + d && At(p, 0, m + d) == BLACK;
    }
    assert Line(m, 0, |g|) == m && At(p, 0, m) == DIM;
    assert Offset(g)(0) == Entry(g)(0 + m) == g[m];
    assert f(0) == Offset(g)(0) * Ch(DIM, Red);
    SumSingle(f, -m, m + 1, 0);
  }

  lemma AveragingIsOdd(g: Weights)
    requires Averaging(g)
    ensures |g| % 2 == 1
  {
  }

  lemma OffsetTotal(g: Weights)
    requires Averaging(g)
    ensures Sum(Offset(g), -Mid(g), Mid(g) + 1) == 1.0
  {
    hide Sum;
    SumShift(Entry(g), Offset(g), -Mid(g), Mid(g) + 1, Mid(g));
  }

  lemma OneRowEntry(g: Weights, p: Picture, col: int, c: Channel, d: int)
    requires ValidPicture(p) && p.h == 1 && Inside(p, 0, col)
    ensures AlongColumn(g, p, 0, col, c)(d) == Ch(At(p, 0, col), c) * Offset(g)(d)
  {
    hide Offset;
    assert Line(0, d, 1) == 0;
    var (a, x) := (Offset(g)(d), Ch(At(p, 0, col), c));
    assert AlongColumn(g, p, 0, col, c)(d) == a * x;
  }

  /** On a picture of one row the column pass changes nothing. */
  lemma OneRowColumnPass(g: Weights, p: Picture, col: int, c: Channel)
    requires ValidPicture(p) && Unit(p) && Averaging(g) && p.h == 1 && Inside(p, 0, col)
    ensures Ch(At(Convolve(ColumnKernel(g), p), 0, col), c) == Ch(At(p, 0, col), c)
  {
    hide Sum, Convolve, ColumnKernel, Offset, AlongColumn, Averaging, Unit;
    var (m, x) := (Mid(g), Ch(At(p, 0, col), c));
    ColumnPassValue(g, p, 0, col, c);
    forall d ensures AlongColumn(g, p, 0, col, c)(d) == x * Offset(g)(d) { OneRowEntry(g, p, col, c, d); }
    SumScale(x, Offset(g), AlongColumn(g, p, 0, col, c), -m, m + 1);
    OffsetTotal(g);
  }

  /** A blur with weight both at its centre and beside it takes the picture of one dim dot off the grid. */
  lemma WideBlurLeavesGrid(g: Weights)
    requires Averaging(g) && |g| > 1 && g[Mid(g)] > 0.0 && g[Mid(g) + 1] > 0.0
    ensures GridPicture(Dot(g)) && !GridPicture(Blurred(g, Dot(g)))
  {
    hide Sum, Convolve, Dot;
    var (p, m) := (Dot(g), Mid(g));
    DotOnGrid(g);
    DotRow(g);
    OneRowColumnPass(g, Convolve(RowKernel(g), p), m, Red);
    SumAtLeastTwo(g, |g|, m, m + 1);
    var x := Ch(At(Blurred(g, p), 0, m), Red);
    assert 0.0 < x * 255.0 < 1.0;
    GridIsMultiple(x);
    assert Inside(Blurred(g, p), 0, m);
  }

  lemma GaussianNeighbour(bell: Bell, sigma: real, size: nat)
    requires IsBell(bell, sigma) && size % 2 == 1 && size > 1 && bell(sigma, 1) > 0.0
    ensures var g := Gaussian(bell, sigma, size);
            |g| == size && g[Mid(g)] > 0.0 && g[Mid(g) + 1] > 0.0
  {
    hide Sum;
    RawTotal(bell, sigma, size);
    var raw := Raw(bell, sigma, size);
    assert SquaredDistance(size, size / 2) == 0 && SquaredDistance(size, size / 2 + 1) == 1;
    PositiveQuotient(raw[size / 2], Total(raw));
    PositiveQuotient(raw[size / 2 + 1], Total(raw));
  }

  lemma PositiveQuotient(x: real, y: real)
    requires x > 0.0 && y > 0.0
    ensures x / y > 0.0
  {
  }

  // ---------- Grey ----------

  const RED_DOT := Picture(1, 1, [[Pixel(1.0, 0.0, 0.0)]])

  /** The grey of full red is 76.245 / 255. */
  lemma GreyLeavesGrid()
    ensures ValidPicture(RED_DOT) && GridPicture(RED_DOT) && !GridPicture(Grey(RED_DOT))
  {
    assert 0.0 == FromByte(0) && 1.0 == FromByte(255);
    assert At(RED_DOT, 0, 0) == Pixel(1.0, 0.0, 0.0);
    assert GridPixel(At(RED_DOT, 0, 0));
    var x := Ch(At(Grey(RED_DOT), 0, 0), Red);
    assert x == 0.299 && Inside(Grey(RED_DOT), 0, 0);
    GridIsMultiple(x);
  }

  // ---------- Filters ----------

  /** The filters that give a multiple of 1/255 for multiples of 1/255: all but the conversion to grey and the
      blurs with more than one weight. */
  predicate KeepsGrid(f: Filter) {
    !f.Grayscale? && (f.GaussianBlur? ==> f.sigma < 0.5)
  }

  lemma OneMinusGrid(x: real)
    requires OnGrid(x)
    ensures OnGrid(1.0 - x)
  {
    var k: Byte :| x == FromByte(k);
    var k': Byte := 255 - k;
    assert 1.0 - x == FromByte(k');
  }

  lemma NegativeGrid(p: Pixel)
    requires GridPixel(p)
    ensures GridPixel(NegativePixel(p))
  {
    hide OnGrid;
    forall c ensures OnGrid(Ch(NegativePixel(p), c)) {
      OneMinusGrid(Ch(p, c));
      assert Ch(NegativePixel(p), c) == 1.0 - Ch(p, c);
    }
  }

  lemma BlackWhiteGrid()
    ensures GridPixel(BLACK) && GridPixel(WHITE)
  {
    assert 0.0 == FromByte(0) && 1.0 == FromByte(255);
  }

  lemma GridIsUnit(p: Picture)
    requires ValidPicture(p) && GridPicture(p)
    ensures Unit(p)
  {
    hide OnGrid, Multiple;
    forall r, c | Inside(p, r, c) ensures UnitPixel(At(p, r, c)) {
      assert GridPixel(At(p, r, c));
      forall ch ensures 0.0 <= Ch(At(p, r, c), ch) <= 1.0 { GridIsMultiple(Ch(At(p, r, c), ch)); }
    }
  }

  lemma ApplyGrid(m: MathLib, f: Filter, p: Picture)
    requires SaneMath(m) && InRange(f) && ValidPicture(p) && KeepsGrid(f) && GridPicture(p) && Apply(m, f, p).Ok?
    ensures GridPicture(Apply(m, f, p).value)
  {
    hide GridPixel, Convolve, TunnelSource, SaneMath, Blurred, Unit;
    var q := Apply(m, f, p).value;
    if f.Sharpening? {
      SharpenIsInteger();
      IntegerKernelKeepsGrid(SHARPEN, p);
    } else if f.GaussianBlur? {
      BlurWeightsAverage(m, f.sigma);
      GridIsUnit(p);
      SmallBlurIsIdentity(BlurWeights(m, f.sigma), p);
    } else {
      BlackWhiteGrid();
      forall r, c | Inside(q, r, c) ensures GridPixel(At(q, r, c)) {
        if f.Negative? { NegativeGrid(At(p, r, c)); }
      }
    }
  }

  ghost predicate KeepsEveryGrid(m: MathLib, f: Filter)
    requires SaneMath(m) && InRange(f)
  {
    forall p: Picture | ValidPicture(p) && GridPicture(p) && Apply(m, f, p).Ok? :: GridPicture(Apply(m, f, p).value)
  }

  /** The list is exact, for a bell that is positive next to its centre, as the exponential is. */
  lemma KeepsGridIff(m: MathLib, f: Filter)
    requires SaneMath(m) && InRange(f)
    requires f.GaussianBlur? && f.sigma >= 0.5 ==> m.bell(f.sigma, 1) > 0.0
    ensures KeepsEveryGrid(m, f) <==> KeepsGrid(f)
  {
    hide GridPicture, Blurred, Convolve;
    if KeepsGrid(f) {
      forall p: Picture | ValidPicture(p) && GridPicture(p) && Apply(m, f, p).Ok? ensures GridPicture(Apply(m, f, p).value) {
        ApplyGrid(m, f, p);
      }
    } else if f.Grayscale? {
      GreyLeavesGrid();
      assert Apply(m, f, RED_DOT) == Ok(Grey(RED_DOT));
    } else {
      var g := BlurWeights(m, f.sigma);
      BlurWeightsAverage(m, f.sigma);
      GaussianNeighbour(m.bell, f.sigma, BlurSize(f.sigma));
      WideBlurLeavesGrid(g);
      assert Apply(m, f, Dot(g)) == Ok(Blurred(g, Dot(g)));
    }
  }
}
