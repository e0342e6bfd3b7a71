/**
 What every filter computes at every pixel, in plain arithmetic on the input picture
 (image_processor/src/filter.cpp and image_processor/src/image.cpp).
 */
module FilterMeaning {
  import opened Wrappers
  import opened FilterTypes
  import opened Sums
  import opened Pictures
  import opened Blur
  import opened Filters

  function Abs(x: int): nat { if x < 0 then -x else x }

  // ---------- The border rule ----------

  lemma SourceIs(row: int, col: int, dr: int, dc: int, h: int, w: int)
    requires 0 <= row < h && 0 <= col < w
    ensures Source(row, col, dr, dc, h, w)
            == if Abs(row + dr) < h && Abs(col + dc) < w then (Abs(row + dr), Abs(col + dc)) else (row, col)
  {
  }

  lemma LineIs(x: int, d: int, n: int)
    requires 0 <= x < n
    ensures Line(x, d, n) == Nearby(x, d, n)
  {
  }

  /** Where a pass looks along its own axis. */
  function Nearby(x: int, d: int, n: int): int { if Abs(x + d) < n then Abs(x + d) else x }

  /** The kernel is 1 at the offset (dr, dc) from its centre and 0 elsewhere. */
  ghost predicate OneAt(k: Kernel, dr: int, dc: int) {
    && OddKernel(k)
    && 0 <= |k| / 2 + dr < |k| && 0 <= |k[0]| / 2 + dc < |k[0]|
    && forall i, j {:trigger k[i][j]} | 0 <= i < |k| && 0 <= j < |k[i]| ::
         k[i][j] == if i == |k| / 2 + dr && j == |k[0]| / 2 + dc then 1.0 else 0.0
  }

  lemma OneAtTap(k: Kernel, p: Picture, row: int, col: int, c: Channel, dr: int, dc: int, i: int, j: int)
    requires OneAt(k, dr, dc) && ValidPicture(p)
    ensures Tap(k, p, row, col, c)(i, j) == if i == dr && j == dc then Ch(SourcePixel(p, row, col, dr, dc), c) else 0.0
  {
    hide Source;
    var (a, b) := (i + MidRow(k), j + MidCol(k));
    assert CoeffAt(k)(i, j) == Coeff(k, a, b) == if i == dr && j == dc then 1.0 else 0.0;
  }

  /** A convolution with a single tap shows the pixel at that offset, each coordinate reflected at the low border, or
      the pixel itself if that lies outside. */
  lemma OneTapReads(k: Kernel, p: Picture, row: int, col: int, dr: int, dc: int)
    requires OneAt(k, dr, dc) && ValidPicture(p) && Unit(p) && 0 <= row < p.h && 0 <= col < p.w
    ensures At(Convolve(k, p), row, col)
            == if Abs(row + dr) < p.h && Abs(col + dc) < p.w then At(p, Abs(row + dr), Abs(col + dc)) else At(p, row, col)
  {
    hide Convolve, Sum, Tap, Source, Abs, Unit;
    var (q, s) := (Convolve(k, p), SourcePixel(p, row, col, dr, dc));
    UnitSource(p, row, col, dr, dc);
    forall c ensures Ch(At(q, row, col), c) == Ch(s, c) {
      forall i, j ensures Tap(k, p, row, col, c)(i, j) == if i == dr && j == dc then Ch(s, c) else 0.0 {
        OneAtTap(k, p, row, col, c, dr, dc, i, j);
      }
      Sum2Single(Tap(k, p, row, col, c), -MidRow(k), MidRow(k) + 1, -MidCol(k), MidCol(k) + 1, dr, dc);
      assert Inside(p, row, col);
    }
    PixelsEqual(At(q, row, col), s);
    SourceIs(row, col, dr, dc, p.h, p.w);
  }

  lemma UnitSource(p: Picture, row: int, col: int, dr: int, dc: int)
    requires ValidPicture(p) && Unit(p) && Inside(p, row, col)
    ensures UnitPixel(SourcePixel(p, row, col, dr, dc))
  {
    var s := Source(row, col, dr, dc, p.h, p.w);
    assert Inside(p, s.0, s.1);
  }

  /** Three kernels of one size; each coefficient of the last is the mixture of those of the others. */
  ghost predicate Mixed(a: real, k1: Kernel, b: real, k2: Kernel, k: Kernel) {
    && OddKernel(k) && OddKernel(k1) && OddKernel(k2)
    && |k| == |k1| == |k2| && |k[0]| == |k1[0]| == |k2[0]|
    && forall i, j {:trigger k[i][j]} | 0 <= i < |k| && 0 <= j < |k[i]| :: k[i][j] == a * k1[i][j] + b * k2[i][j]
  }

  lemma MixedEntry(a: real, k1: Kernel, b: real, k2: Kernel, k: Kernel, i: int, j: int)
    requires Mixed(a, k1, b, k2, k)
    ensures |k| == |k1| == |k2| > 0 && |k[0]| == |k1[0]| == |k2[0]|
    ensures Coeff(k, i, j) == a * Coeff(k1, i, j) + b * Coeff(k2, i, j)
  {
    if 0 <= i < |k| && 0 <= j < |k[i]| {
      assert k[i][j] == a * k1[i][j] + b * k2[i][j];
    } else {
      assert a * 0.0 + b * 0.0 == 0.0;
    }
  }

  lemma MixedCoeff(a: real, k1: Kernel, b: real, k2: Kernel, k: Kernel, i: int, j: int)
    requires Mixed(a, k1, b, k2, k)
    ensures CoeffAt(k)(i, j) == a * CoeffAt(k1)(i, j) + b * CoeffAt(k2)(i, j)
    ensures MidRow(k) == MidRow(k1) == MidRow(k2) && MidCol(k) == MidCol(k1) == MidCol(k2)
  {
    hide Mixed, Coeff;
    MixedEntry(a, k1, b, k2, k, i + MidRow(k), j + MidCol(k));
    CoeffAtIs(k, i, j);
    CoeffAtIs(k1, i, j);
    CoeffAtIs(k2, i, j);
  }

  lemma MixedTap(a: real, k1: Kernel, b: real, k2: Kernel, k: Kernel, p: Picture, row: int, col: int, c: Channel,
                 i: int, j: int)
    requires Mixed(a, k1, b, k2, k) && ValidPicture(p)
    ensures Tap(k, p, row, col, c)(i, j) == a * Tap(k1, p, row, col, c)(i, j) + b * Tap(k2, p, row, col, c)(i, j)
  {
    hide Mixed, CoeffAt, SourcePixel;
    MixedCoeff(a, k1, b, k2, k, i, j);
    var (x, y, z) := (CoeffAt(k1)(i, j), CoeffAt(k2)(i, j), Ch(SourcePixel(p, row, col, i, j), c));
    assert (a * x + b * y) * z == a * (x * z) + b * (y * z);
    assert Tap(k1, p, row, col, c)(i, j) == x * z && Tap(k2, p, row, col, c)(i, j) == y * z;
  }

  /** The sums before the clamp are linear in the kernel; with `OneTapReads` this determines them for every kernel. */
  lemma WeightedLinear(a: real, k1: Kernel, b: real, k2: Kernel, k: Kernel, p: Picture, row: int, col: int, c: Channel)
    requires Mixed(a, k1, b, k2, k) && ValidPicture(p)
    ensures Weighted(k, p, row, col, c) == a * Weighted(k1, p, row, col, c) + b * Weighted(k2, p, row, col, c)
  {
    hide Sum, Tap, Mixed, CoeffAt;
    var (t, t1, t2) := (Tap(k, p, row, col, c), Tap(k1, p, row, col, c), Tap(k2, p, row, col, c));
    var zero := (i: int, j: int) => 0.0;
    MixedCoeff(a, k1, b, k2, k, 0, 0);
    var (mr, mc) := (MidRow(k), MidCol(k));
    forall i, j ensures t(i, j) == a * t1(i, j) + b * t2(i, j) + 0.0 * zero(i, j) {
      MixedTap(a, k1, b, k2, k, p, row, col, c, i, j);
    }
    Sum2Mix(a, t1, b, t2, 0.0, zero, t, -mr, mr + 1, -mc, mc + 1);
  }

  // ---------- Running one filter ----------

  lemma RunSingle(m: MathLib, f: Filter, p: Picture)
    requires SaneMath(m) && InRange(f) && ValidPicture(p)
    ensures RunFilters(m, [f], p) == Apply(m, f, p)
  {
    hide Apply;
    assert [f][1..] == [];
    if Apply(m, f, p).Ok? { assert RunFilters(m, [], Apply(m, f, p).value) == Apply(m, f, p); }
  }

  /** A list of the one filter does not throw, keeps the size, and gives `q`. */
  ghost predicate Gives(m: MathLib, f: Filter, p: Picture, q: Picture)
    requires SaneMath(m) && InRange(f) && ValidPicture(p)
  {
    RunFilters(m, [f], p) == Ok(q) && ValidPicture(q) && q.h == p.h && q.w == p.w
  }

  lemma NegativeIs(m: MathLib, p: Picture, row: int, col: int) returns (q: Picture)
    requires SaneMath(m) && ValidPicture(p) && 0 <= row < p.h && 0 <= col < p.w
    ensures Gives(m, Negative, p, q)
    ensures var x := At(p, row, col); At(q, row, col) == Pixel(1.0 - x.r, 1.0 - x.g, 1.0 - x.b)
  {
    RunSingle(m, Negative, p);
    q := Negated(p);
    assert Inside(p, row, col);
  }

  function Luma(x: Pixel): real {
    0.299 * x.r + 0.587 * x.g + 0.114 * x.b
  }

  lemma LumaUnit(x: Pixel)
    requires UnitPixel(x)
    ensures 0.0 <= Luma(x) <= 1.0 && GreyPixel(x) == Pixel(Luma(x), Luma(x), Luma(x))
  {
    assert 0.0 <= Ch(x, Red) <= 1.0 && 0.0 <= Ch(x, Green) <= 1.0 && 0.0 <= Ch(x, Blue) <= 1.0;
  }

  lemma GreyAt(p: Picture, row: int, col: int)
    requires ValidPicture(p) && Unit(p) && Inside(p, row, col)
    ensures var v := Luma(At(p, row, col)); At(Grey(p), row, col) == Pixel(v, v, v)
  {
    hide GreyPixel, Luma;
    LumaUnit(At(p, row, col));
  }

  lemma GrayscaleIs(m: MathLib, p: Picture, row: int, col: int) returns (q: Picture)
    requires SaneMath(m) && ValidPicture(p) && Unit(p) && 0 <= row < p.h && 0 <= col < p.w
    ensures Gives(m, Grayscale, p, q)
    ensures var x := At(p, row, col);
            var v := 0.299 * x.r + 0.587 * x.g + 0.114 * x.b;
            At(q, row, col) == Pixel(v, v, v)
  {
    hide Grey;
    RunSingle(m, Grayscale, p);
    q := Grey(p);
    GreyAt(p, row, col);
  }

  // ---------- Sharpening and edges ----------

  /** A cross: `x` at the centre, -1 beside it, 0 in the corners. */
  ghost predicate Cross(k: Kernel, x: real) {
    k == [[0.0, -1.0, 0.0], [-1.0, x, -1.0], [0.0, -1.0, 0.0]]
  }

  lemma CrossTap(k: Kernel, x: real, p: Picture, row: int, col: int, c: Channel, i: int, j: int)
    requires Cross(k, x) && ValidPicture(p) && -1 <= i <= 1 && -1 <= j <= 1
    ensures var seen := Ch(SourcePixel(p, row, col, i, j), c);
            Tap(k, p, row, col, c)(i, j) == if i == 0 && j == 0 then Times(x, seen) else if i == 0 || j == 0 then -seen else 0.0
  {
    hide SourcePixel;
    CoeffAtIs(k, i, j);
    assert k[i + 1][j + 1] == if i == 0 && j == 0 then x else if i == 0 || j == 0 then -1.0 else 0.0;
  }

  lemma RowOfThree(f: (int, int) -> real, i: int)
    ensures RowSum(f, -1, 2)(i) == f(i, -1) + f(i, 0) + f(i, 1)
  {
    SumOfThree(j => f(i, j));
  }

  lemma NineSum(f: (int, int) -> real)
    ensures Sum2(f, -1, 2, -1, 2) == f(-1, -1) + f(-1, 0) + f(-1, 1) + f(0, -1) + f(0, 0) + f(0, 1) + f(1, -1) + f(1, 0) + f(1, 1)
  {
    hide Sum, RowSum;
    SumOfThree(RowSum(f, -1, 2));
    RowOfThree(f, -1);
    RowOfThree(f, 0);
    RowOfThree(f, 1);
  }

  lemma CrossSize(k: Kernel, x: real)
    requires Cross(k, x)
    ensures MidRow(k) == 1 && MidCol(k) == 1
  {
  }

  /** A cross: `x` times the pixel, minus its four neighbours under the border rule. */
  lemma CrossValue(k: Kernel, x: real, p: Picture, row: int, col: int, c: Channel)
    requires Cross(k, x) && ValidPicture(p)
    ensures Weighted(k, p, row, col, c)
            == Times(x, Ch(SourcePixel(p, row, col, 0, 0), c))
               - Ch(SourcePixel(p, row, col, -1, 0), c) - Ch(SourcePixel(p, row, col, 1, 0), c)
               - Ch(SourcePixel(p, row, col, 0, -1), c) - Ch(SourcePixel(p, row, col, 0, 1), c)
  {
    CrossSize(k, x);
    hide Sum, SourcePixel, Cross, Tap, RowSum, MidRow, MidCol, Ch, Times;
    var t := Tap(k, p, row, col, c);
    NineSum(t);
    hide Sum2;
    CrossTap(k, x, p, row, col, c, -1, -1);
    CrossTap(k, x, p, row, col, c, -1, 0);
    CrossTap(k, x, p, row, col, c, -1, 1);
    CrossTap(k, x, p, row, col, c, 0, -1);
    CrossTap(k, x, p, row, col, c, 0, 0);
    CrossTap(k, x, p, row, col, c, 0, 1);
    CrossTap(k, x, p, row, col, c, 1, -1);
    CrossTap(k, x, p, row, col, c, 1, 0);
    CrossTap(k, x, p, row, col, c, 1, 1);
  }

  /** The pixel that a filter sees beside another: reflected at the low border, itself at the high one. */
  function Beside(p: Picture, row: int, col: int, dr: int, dc: int): Pixel
    requires ValidPicture(p)
  {
    if Abs(row + dr) < p.h && Abs(col + dc) < p.w then At(p, Abs(row + dr), Abs(col + dc)) else At(p, row, col)
  }

  lemma BesideIs(p: Picture, row: int, col: int, dr: int, dc: int)
    requires ValidPicture(p) && Inside(p, row, col)
    ensures SourcePixel(p, row, col, dr, dc) == Beside(p, row, col, dr, dc)
  {
    hide Source;
    SourceIs(row, col, dr, dc, p.h, p.w);
  }

  lemma CrossBeside(k: Kernel, x: real, p: Picture, row: int, col: int, c: Channel)
    requires Cross(k, x) && ValidPicture(p) && Inside(p, row, col)
    ensures Weighted(k, p, row, col, c)
            == x * Ch(At(p, row, col), c)
               - Ch(Beside(p, row, col, -1, 0), c) - Ch(Beside(p, row, col, 1, 0), c)
               - Ch(Beside(p, row, col, 0, -1), c) - Ch(Beside(p, row, col, 0, 1), c)
  {
    hide Weighted, Ch;
    CrossValue(k, x, p, row, col, c);
    assert Beside(p, row, col, 0, 0) == At(p, row, col);
    hide SourcePixel, Beside;
    BesideIs(p, row, col, 0, 0);
    BesideIs(p, row, col, -1, 0);
    BesideIs(p, row, col, 1, 0);
    BesideIs(p, row, col, 0, -1);
    BesideIs(p, row, col, 0, 1);
  }

  lemma CrossConstants()
    ensures Cross(SHARPEN, 5.0) && Cross(LAPLACE, 4.0)
  {
  }

  function Clip(x: real): real { if x < 0.0 then 0.0 else if x > 1.0 then 1.0 else x }

  lemma SharpeningIs(m: MathLib, p: Picture, row: int, col: int, c: Channel) returns (q: Picture)
    requires SaneMath(m) && ValidPicture(p) && 0 <= row < p.h && 0 <= col < p.w
    ensures Gives(m, Sharpening, p, q)
    ensures Ch(At(q, row, col), c)
            == Clip(5.0 * Ch(At(p, row, col), c)
                    - Ch(Beside(p, row, col, -1, 0), c) - Ch(Beside(p, row, col, 1, 0), c)
                    - Ch(Beside(p, row, col, 0, -1), c) - Ch(Beside(p, row, col, 0, 1), c))
  {
    CrossConstants();
    hide Convolve, SHARPEN, Beside, Ch, Weighted;
    RunSingle(m, Sharpening, p);
    q := Convolve(SHARPEN, p);
    assert Inside(p, row, col);
    CrossBeside(SHARPEN, 5.0, p, row, col, c);
  }

  /** The convolution inside edge detection, on the greys of the picture. */
  function EdgeValue(p: Picture, row: int, col: int): real
    requires ValidPicture(p)
  {
    4.0 * Luma(At(p, row, col)) - Luma(Beside(p, row, col, -1, 0)) - Luma(Beside(p, row, col, 1, 0))
    - Luma(Beside(p, row, col, 0, -1)) - Luma(Beside(p, row, col, 0, 1))
  }

  lemma GreyBeside(p: Picture, row: int, col: int, dr: int, dc: int)
    requires ValidPicture(p) && Unit(p) && Inside(p, row, col)
    ensures Ch(Beside(Grey(p), row, col, dr, dc), Red) == Luma(Beside(p, row, col, dr, dc))
  {
    hide Grey, Luma;
    var (r, c) := (Abs(row + dr), Abs(col + dc));
    if r < p.h && c < p.w { GreyAt(p, r, c); } else { GreyAt(p, row, col); }
  }

  lemma EdgeWeighted(p: Picture, row: int, col: int)
    requires ValidPicture(p) && Unit(p) && Inside(p, row, col)
    ensures Weighted(LAPLACE, Grey(p), row, col, Red) == EdgeValue(p, row, col)
  {
    CrossConstants();
    hide Grey, LAPLACE, Weighted, Beside, Luma, Unit;
    CrossBeside(LAPLACE, 4.0, Grey(p), row, col, Red);
    GreyAt(p, row, col);
    GreyBeside(p, row, col, -1, 0);
    GreyBeside(p, row, col, 1, 0);
    GreyBeside(p, row, col, 0, -1);
    GreyBeside(p, row, col, 0, 1);
  }

  lemma EdgesAt(p: Picture, t: real, row: int, col: int)
    requires ValidPicture(p) && Inside(p, row, col)
    ensures At(Edges(p, t), row, col)
            == if Clip(Weighted(LAPLACE, Grey(p), row, col, Red)) <= t then Pixel(0.0, 0.0, 0.0) else Pixel(1.0, 1.0, 1.0)
  {
    hide Weighted, Grey, LAPLACE;
    var q := Convolve(LAPLACE, Grey(p));
    assert Ch(At(q, row, col), Red) == Clip(Weighted(LAPLACE, Grey(p), row, col, Red));
    hide Convolve;
    assert At(MapPicture(q, ThresholdPixel(t)), row, col) == ThresholdPixel(t)(At(q, row, col));
  }

  /** Edge detection: black where four times the grey minus the greys of the neighbours is at most the threshold,
      white elsewhere. */
  lemma EdgeDetectionIs(m: MathLib, t: real, p: Picture, row: int, col: int) returns (q: Picture)
    requires SaneMath(m) && ValidPicture(p) && Unit(p) && 0 <= row < p.h && 0 <= col < p.w
    ensures Gives(m, EdgeDetection(t), p, q)
    ensures At(q, row, col) == if Clip(EdgeValue(p, row, col)) <= t then Pixel(0.0, 0.0, 0.0) else Pixel(1.0, 1.0, 1.0)
  {
    hide Edges, EdgeValue, Weighted;
    RunSingle(m, EdgeDetection(t), p);
    q := Edges(p, t);
    EdgesAt(p, t, row, col);
    EdgeWeighted(p, row, col);
  }

  /** At a pixel away from the borders, spelled out. */
  lemma EdgeInside(m: MathLib, t: real, p: Picture, row: int, col: int) returns (q: Picture)
    requires SaneMath(m) && ValidPicture(p) && Unit(p) && 0 < row < p.h - 1 && 0 < col < p.w - 1
    ensures Gives(m, EdgeDetection(t), p, q)
    ensures var grey := (r: int, c: int) =>
              0.299 * At(p, r, c).r + 0.587 * At(p, r, c).g + 0.114 * At(p, r, c).b;
            var v := 4.0 * grey(row, col) - grey(row - 1, col) - grey(row + 1, col) - grey(row, col - 1) - grey(row, col + 1);
            At(q, row, col) == if (if v < 0.0 then 0.0 else if v > 1.0 then 1.0 else v) <= t then Pixel(0.0, 0.0, 0.0)
                               else Pixel(1.0, 1.0, 1.0)
  {
    q := EdgeDetectionIs(m, t, p, row, col);
  }

  // ---------- Crop ----------

  lemma NegativeIsLarge(x: int)
    requires -0x8000 <= x < 0
    ensures Uint32(x) == x + 0x1_0000_0000
  {
  }

  /** A crop cuts off rows at the bottom and columns at the right, and nothing if it is larger than the picture or
      its size is negative. */
  lemma CropIs(m: MathLib, w: int, h: int, p: Picture) returns (q: Picture)
    requires SaneMath(m) && -0x8000 <= w < 0x8000 && -0x8000 <= h < 0x8000
    requires ValidPicture(p) && p.h < 0x8000_0000 && p.w < 0x8000_0000
    ensures RunFilters(m, [Crop(w, h)], p) == Ok(q) && ValidPicture(q)
    ensures q.h == (if 0 <= h < p.h then h else p.h) && q.w == (if 0 <= w < p.w then w else p.w)
    ensures forall r, c | 0 <= r < q.h && 0 <= c < q.w :: At(q, r, c) == At(p, r, c)
  {
    hide Uint32, Cropped;
    RunSingle(m, Crop(w, h), p);
    q := Cropped(p, w, h);
    if w < 0 { NegativeIsLarge(w); }
    if h < 0 { NegativeIsLarge(h); }
    forall r, c | 0 <= r < q.h && 0 <= c < q.w ensures At(q, r, c) == At(p, r, c) { assert Inside(q, r, c); }
  }

  // ---------- Tunnel ----------

  /** The addition formulas. */
  ghost predicate AdditionMath(m: MathLib) {
    forall a, b ::
      && m.sin(a + b) == Times(m.sin(a), m.cos(b)) + Times(m.cos(a), m.sin(b))
      && m.cos(a + b) == Times(m.cos(a), m.cos(b)) - Times(m.sin(a), m.sin(b))
  }

  lemma Rotated(d: real, s: real, c: real, u: real, v: real)
    ensures d * (s * v + c * u) == (d * s) * v + (d * c) * u
    ensures d * (c * v - s * u) == (d * c) * v - (d * s) * u
  {
    var (a, b) := (s * v, c * u);
    assert d * (a + b) == d * a + d * b;
    assert d * a == (d * s) * v && d * b == (d * c) * u;
    var (e, f) := (c * v, s * u);
    assert d * (e - f) == d * e - d * f;
    assert d * e == (d * c) * v && d * f == (d * s) * u;
  }

  /** The vector (y, x), turned. */
  function TurnedY(m: MathLib, y: real, x: real, turn: real): real { y * m.cos(turn) + x * m.sin(turn) }

  function Length(m: MathLib, y: real, x: real): real { m.sqrt(y * y + x * x) }

  function TurnedX(m: MathLib, y: real, x: real, turn: real): real { x * m.cos(turn) - y * m.sin(turn) }

  /** Adding to the angle of a vector turns it. */
  lemma Turned(m: MathLib, y: real, x: real, turn: real)
    requires PolarMath(m) && AdditionMath(m)
    ensures var (d, angle) := (m.sqrt(Norm2(y, x)), m.atan2(y, x) + turn);
            && Times(d, m.sin(angle)) == TurnedY(m, y, x, turn)
            && Times(d, m.cos(angle)) == TurnedX(m, y, x, turn)
  {
    hide Norm2;
    var (d, a) := (m.sqrt(Norm2(y, x)), m.atan2(y, x));
    var (s, c, u, v) := (m.sin(a), m.cos(a), m.sin(turn), m.cos(turn));
    assert Times(d, s) == y && Times(d, c) == x;
    assert m.sin(a + turn) == s * v + c * u && m.cos(a + turn) == c * v - s * u;
    Rotated(d, s, c, u, v);
  }

  /** How far the tunnel turns: the whole strength at the centre, nothing at the radius. */
  function Turn(d: Disc, distance: real): real
    requires d.radius != 0.0
  {
    d.strength * (1.0 - distance / d.radius)
  }

  /** Where the tunnel looks, spelled out: the offset from the centre, turned and cut to whole pixels, if that lies in the picture. */
  function Looks(m: MathLib, p: Picture, d: Disc, row: int, col: int): (int, int) {
    var y, x := (row - d.row) as real, (col - d.col) as real;
    var distance := Length(m, y, x);
    if 0.0 < distance < d.radius then
      var turn := Turn(d, distance);
      var r, c := d.row + Trunc(TurnedY(m, y, x, turn)), d.col + Trunc(TurnedX(m, y, x, turn));
      if 0 <= r < p.h && 0 <= c < p.w then (r, c) else (row, col)
    else (row, col)
  }

  lemma DistanceIs(m: MathLib, d: Disc, row: int, col: int, y: real, x: real)
    requires y == (row - d.row) as real && x == (col - d.col) as real
    ensures Distance(m, d, row, col) == Length(m, y, x) == m.sqrt(Norm2(y, x))
  {
    assert Norm2(y, x) == y * y + x * x;
  }

  lemma TurnedOffset(m: MathLib, d: Disc, row: int, col: int, y: real, x: real, turn: real)
    requires PolarMath(m) && AdditionMath(m) && d.radius != 0.0
    requires y == (row - d.row) as real && x == (col - d.col) as real
    requires turn == Turn(d, Distance(m, d, row, col))
    ensures var distance := Distance(m, d, row, col);
            var angle := Angle(m, d, distance, row, col);
            Times(distance, m.sin(angle)) == TurnedY(m, y, x, turn) && Times(distance, m.cos(angle)) == TurnedX(m, y, x, turn)
  {
    hide Times, PolarMath, AdditionMath, TurnedY, TurnedX, Distance;
    DistanceIs(m, d, row, col, y, x);
    Turned(m, y, x, turn);
    assert Angle(m, d, Distance(m, d, row, col), row, col) == m.atan2(y, x) + turn;
  }

  lemma LooksIs(m: MathLib, p: Picture, d: Disc, row: int, col: int)
    requires PolarMath(m) && AdditionMath(m)
    ensures TunnelSource(m, p, d, row, col) == Looks(m, p, d, row, col)
  {
    hide Trunc, Times, PolarMath, AdditionMath, TurnedY, TurnedX, Distance, Angle, Length, Turn, Norm2;
    var y, x := (row - d.row) as real, (col - d.col) as real;
    var distance := Distance(m, d, row, col);
    DistanceIs(m, d, row, col, y, x);
    if 0.0 < distance < d.radius {
      TurnedOffset(m, d, row, col, y, x, Turn(d, distance));
    }
  }

  /** The tunnel throws exactly when its centre, where 0 stands for the middle, lies outside; otherwise every pixel
      shows the pixel where it looks. */
  lemma TunnelIs(m: MathLib, h: int, w: int, strength: real, radius: real, p: Picture) returns (d: Disc)
    requires SaneMath(m) && PolarMath(m) && AdditionMath(m) && ValidPicture(p)
    ensures d == Disc(if h == 0 then p.h / 2 else h, if w == 0 then p.w / 2 else w, strength, radius)
    ensures var result := RunFilters(m, [Tunnel(h, w, strength, radius)], p);
            if !(0 <= d.row < p.h && 0 <= d.col < p.w) then result == Thrown
            else
              && result.Ok? && ValidPicture(result.value) && result.value.h == p.h && result.value.w == p.w
              && forall row, col | 0 <= row < p.h && 0 <= col < p.w ::
                   var s := Looks(m, p, d, row, col);
                   At(result.value, row, col) == At(p, s.0, s.1)
  {
    hide TunnelSource, Tunnelled, SaneMath, PolarMath, AdditionMath, Looks;
    RunSingle(m, Tunnel(h, w, strength, radius), p);
    d := Disc(Centre(h, p.h), Centre(w, p.w), strength, radius);
    if 0 <= d.row < p.h && 0 <= d.col < p.w {
      var q := Tunnelled(m, p, d);
      forall row, col | 0 <= row < p.h && 0 <= col < p.w
        ensures var s := Looks(m, p, d, row, col); At(q, row, col) == At(p, s.0, s.1)
      {
        LooksIs(m, p, d, row, col);
        assert Inside(p, row, col);
      }
    }
  }

  // ---------- Blur ----------

  /** The unnormalised weight at an offset. */
  function BellAt(bell: Bell, sigma: real): int -> real {
    i => bell(sigma, Abs(i) * Abs(i))
  }

  lemma RawAt(bell: Bell, sigma: real, size: nat, i: int)
    requires size % 2 == 1 && -(size / 2) <= i <= size / 2
    ensures 0 <= i + size / 2 < size && Raw(bell, sigma, size)[i + size / 2] == BellAt(bell, sigma)(i)
  {
    SquareIs(Abs(i));
    hide Square;
    assert SquaredDistance(size, i + size / 2) == Square(Abs(i));
  }

  lemma SquareIs(n: nat)
    ensures Square(n) == n * n
  {
  }

  lemma RawSum(bell: Bell, sigma: real, size: nat)
    requires size % 2 == 1
    ensures Total(Raw(bell, sigma, size)) == Sum(BellAt(bell, sigma), -(size / 2), size / 2 + 1)
  {
    hide Sum, Raw, BellAt;
    var (raw, m) := (Raw(bell, sigma, size), size / 2);
    var shifted := (i: int) => Entry(raw)(i + m);
    RawLength(bell, sigma, size);
    forall i | -m <= i < m + 1 ensures BellAt(bell, sigma)(i) == shifted(i) {
      RawAt(bell, sigma, size, i);
      assert shifted(i) == Entry(raw)(i + m) == raw[i + m];
    }
    SumEqual(BellAt(bell, sigma), shifted, -m, m + 1);
    SumShift(Entry(raw), shifted, -m, m + 1, m);
  }

  lemma RawLength(bell: Bell, sigma: real, size: nat)
    ensures |Raw(bell, sigma, size)| == size
  {
  }

  /** Each weight is the bell at the squared distance of its column, divided by the sum of them all. */
  lemma WeightIs(bell: Bell, sigma: real, size: nat, i: int)
    requires IsBell(bell, sigma) && size % 2 == 1 && -(size / 2) <= i <= size / 2
    ensures var total := Sum(BellAt(bell, sigma), -(size / 2), size / 2 + 1);
            && total > 0.0
            && |Gaussian(bell, sigma, size)| == size
            && Offset(Gaussian(bell, sigma, size))(i) == bell(sigma, Abs(i) * Abs(i)) / total
  {
    hide Sum, Raw;
    RawLength(bell, sigma, size);
    RawTotal(bell, sigma, size);
    RawSum(bell, sigma, size);
    RawAt(bell, sigma, size, i);
    var g := Gaussian(bell, sigma, size);
    assert Offset(g)(i) == Entry(g)(i + Mid(g)) == g[i + size / 2];
  }

  /** Two entries of the kernel are to each other as the bell at their squared distances. */
  lemma WeightRatio(bell: Bell, sigma: real, size: nat, a: nat, b: nat)
    requires IsBell(bell, sigma) && size % 2 == 1 && a < size && b < size
    ensures |Gaussian(bell, sigma, size)| == size
    ensures var (d, e) := (Abs(a - size / 2), Abs(b - size / 2));
            Gaussian(bell, sigma, size)[a] * bell(sigma, e * e) == Gaussian(bell, sigma, size)[b] * bell(sigma, d * d)
  {
    hide Gaussian, Sum, Abs;
    var (i, j) := (a - size / 2, b - size / 2);
    WeightIs(bell, sigma, size, i);
    WeightIs(bell, sigma, size, j);
    var g := Gaussian(bell, sigma, size);
    assert Offset(g)(i) == Entry(g)(i + Mid(g)) == g[a];
    assert Offset(g)(j) == Entry(g)(j + Mid(g)) == g[b];
    var total := Sum(BellAt(bell, sigma), -(size / 2), size / 2 + 1);
    CrossRatio(bell(sigma, Abs(i) * Abs(i)), bell(sigma, Abs(j) * Abs(j)), total);
  }

  lemma CrossRatio(x: real, y: real, total: real)
    requires total > 0.0
    ensures x / total * y == y / total * x
  {
  }

  /** One term of the blur: the two weights before normalisation and the pixel under one border rule per axis. */
  function BlurTerm(bell: Bell, sigma: real, p: Picture, row: int, col: int, c: Channel): (int, int) -> real
    requires ValidPicture(p)
  {
    (i, j) => bell(sigma, Abs(i) * Abs(i)) * bell(sigma, Abs(j) * Abs(j))
              * Ch(At(p, Nearby(row, i, p.h), Nearby(col, j, p.w)), c)
  }

  lemma BlurTermIs(bell: Bell, sigma: real, size: nat, p: Picture, row: int, col: int, c: Channel, i: int, j: int)
    requires IsBell(bell, sigma) && size % 2 == 1 && -(size / 2) <= i <= size / 2 && -(size / 2) <= j <= size / 2
    requires ValidPicture(p) && Inside(p, row, col)
    ensures var total := Sum(BellAt(bell, sigma), -(size / 2), size / 2 + 1);
            && total > 0.0
            && Product(Gaussian(bell, sigma, size), p, row, col, c)(i, j)
               == 1.0 / (total * total) * BlurTerm(bell, sigma, p, row, col, c)(i, j)
  {
    hide Gaussian, Sum, Abs, Line, BellAt, Offset, At, Ch, Product, BlurTerm, IsBell;
    WeightIs(bell, sigma, size, i);
    WeightIs(bell, sigma, size, j);
    var total := Sum(BellAt(bell, sigma), -(size / 2), size / 2 + 1);
    var g := Gaussian(bell, sigma, size);
    var x := Ch(At(p, Line(row, i, p.h), Line(col, j, p.w)), c);
    ProductAt(g, p, row, col, c, i, j);
    BlurTermAt(bell, sigma, p, row, col, c, i, j);
    TwoQuotients(Offset(g)(i), Offset(g)(j), bell(sigma, Abs(i) * Abs(i)), bell(sigma, Abs(j) * Abs(j)), x, total,
                 BlurTerm(bell, sigma, p, row, col, c)(i, j), Product(g, p, row, col, c)(i, j));
  }

  lemma ProductAt(g: Weights, p: Picture, row: int, col: int, c: Channel, i: int, j: int)
    requires ValidPicture(p)
    ensures Product(g, p, row, col, c)(i, j)
            == Offset(g)(i) * (Offset(g)(j) * Ch(At(p, Line(row, i, p.h), Line(col, j, p.w)), c))
  {
  }

  lemma BlurTermAt(bell: Bell, sigma: real, p: Picture, row: int, col: int, c: Channel, i: int, j: int)
    requires ValidPicture(p) && Inside(p, row, col)
    ensures BlurTerm(bell, sigma, p, row, col, c)(i, j)
            == bell(sigma, Abs(i) * Abs(i)) * bell(sigma, Abs(j) * Abs(j))
               * Ch(At(p, Line(row, i, p.h), Line(col, j, p.w)), c)
  {
    hide Abs, Line, At, Ch, Nearby;
    LineIs(row, i, p.h);
    LineIs(col, j, p.w);
  }

  /** A product of two weights that are quotients of the same total. */
  lemma TwoQuotients(u: real, v: real, a: real, b: real, x: real, total: real, term: real, product: real)
    requires total > 0.0 && u == a / total && v == b / total && term == a * b * x && product == u * (v * x)
    ensures total * total > 0.0 && product == 1.0 / (total * total) * term
  {
    var t := 1.0 / total;
    assert u == a * t && v == b * t;
    assert 1.0 / (total * total) == t * t;
    assert (a * t) * ((b * t) * x) == (t * t) * (a * b * x);
  }

  /** The blur, spelled out: over the odd number of columns next to four sigmas, the mean of the pixels around, weighted
      with the bell along both axes. */
  lemma BlurIs(m: MathLib, sigma: real, p: Picture, row: int, col: int, c: Channel) returns (q: Picture, mid: int, total: real)
    requires SaneMath(m) && InRange(GaussianBlur(sigma)) && sigma > 0.0
    requires ValidPicture(p) && Unit(p) && 0 <= row < p.h && 0 <= col < p.w
    ensures Gives(m, GaussianBlur(sigma), p, q)
    ensures mid >= 0 && sigma * 4.0 - 1.0 < (2 * mid + 1) as real <= sigma * 4.0 + 1.0
    ensures total == Sum(i => m.bell(sigma, Abs(i) * Abs(i)), -mid, mid + 1) && total > 0.0
    ensures Ch(At(q, row, col), c)
            == Sum2(BlurTerm(m.bell, sigma, p, row, col, c), -mid, mid + 1, -mid, mid + 1) / (total * total)
  {
    hide Sum, Blurred, BellAt, Abs, Unit, Blur2, BlurTerm;
    RunSingle(m, GaussianBlur(sigma), p);
    var g := BlurWeights(m, sigma);
    mid := BlurSize(sigma) / 2;
    BlurWeightsAverage(m, sigma);
    q := Blurred(g, p);
    total := Sum(BellAt(m.bell, sigma), -mid, mid + 1);
    Separable(g, p, row, col, c);
    BlurSum(m.bell, sigma, BlurSize(sigma), p, row, col, c);
    BellSum(m.bell, sigma, mid);
    Inverse(Sum2(BlurTerm(m.bell, sigma, p, row, col, c), -mid, mid + 1, -mid, mid + 1), total * total);
  }

  lemma Inverse(x: real, y: real)
    requires y != 0.0
    ensures 1.0 / y * x == x / y
  {
  }

  lemma BlurSum(bell: Bell, sigma: real, size: nat, p: Picture, row: int, col: int, c: Channel)
    requires IsBell(bell, sigma) && size % 2 == 1 && ValidPicture(p) && Inside(p, row, col)
    ensures var m := size / 2;
            var total := Sum(BellAt(bell, sigma), -m, m + 1);
            && total > 0.0 && total * total > 0.0
            && Blur2(Gaussian(bell, sigma, size), p, row, col, c)
               == 1.0 / (total * total) * Sum2(BlurTerm(bell, sigma, p, row, col, c), -m, m + 1, -m, m + 1)
  {
    hide Sum, Gaussian, BellAt, Product, BlurTerm, Sum2;
    var g := Gaussian(bell, sigma, size);
    WeightIs(bell, sigma, size, 0);
    var m := size / 2;
    var total := Sum(BellAt(bell, sigma), -m, m + 1);
    var (products, terms) := (Product(g, p, row, col, c), BlurTerm(bell, sigma, p, row, col, c));
    SquarePositive(total);
    forall i, j | -m <= i < m + 1 && -m <= j < m + 1 ensures products(i, j) == 1.0 / (total * total) * terms(i, j) {
      BlurTermIs(bell, sigma, size, p, row, col, c, i, j);
    }
    Sum2Scale(1.0 / (total * total), terms, products, -m, m + 1, -m, m + 1);
  }

  lemma SquarePositive(x: real)
    requires x > 0.0
    ensures x * x > 0.0
  {
  }

  lemma BellSum(bell: Bell, sigma: real, mid: int)
    ensures Sum(BellAt(bell, sigma), -mid, mid + 1) == Sum(i => bell(sigma, Abs(i) * Abs(i)), -mid, mid + 1)
  {
    hide Sum;
    SumEqual(BellAt(bell, sigma), i => bell(sigma, Abs(i) * Abs(i)), -mid, mid + 1);
  }

  /** With sigma zero the blur throws, whatever the picture. */
  lemma BlurZeroThrows(m: MathLib, p: Picture)
    requires SaneMath(m) && ValidPicture(p)
    ensures RunFilters(m, [GaussianBlur(0.0)], p) == Thrown
  {
    RunSingle(m, GaussianBlur(0.0), p);
  }
}
