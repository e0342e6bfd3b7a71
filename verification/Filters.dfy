/**
 What every filter computes, as functions on pictures (image_processor/src/filter.cpp and
 image_processor/src/handler.cpp).

 The functions of <cmath> are a parameter: any root, any angle and any pair of sine and
 cosine on the unit circle will do.
 */
module Filters {
  import opened Wrappers
  import opened FilterTypes
  import opened Sums
  import opened Pictures
  import opened Blur

  datatype MathLib = MathLib(bell: Bell, sqrt: real -> real, atan2: (real, real) -> real,
                             sin: real -> real, cos: real -> real)

  function Norm2(y: real, x: real): real { y * y + x * x }

  function Times(a: real, b: real): real { a * b }

  ghost predicate SaneMath(m: MathLib) {
    && (forall sigma | sigma > 0.0 :: IsBell(m.bell, sigma))
    && (forall x | x >= 0.0 :: m.sqrt(x) >= 0.0 && m.sqrt(x) * m.sqrt(x) == x)
    && (forall a :: Norm2(m.sin(a), m.cos(a)) == 1.0)
  }

  /** `atan2` gives the angle of a vector. */
  ghost predicate PolarMath(m: MathLib) {
    forall y, x :: Times(m.sqrt(Norm2(y, x)), m.sin(m.atan2(y, x))) == y
                   && Times(m.sqrt(Norm2(y, x)), m.cos(m.atan2(y, x))) == x
  }

  // ---------- Sharpening and edges ----------

  const SHARPEN: Kernel := [[0.0, -1.0, 0.0], [-1.0, 5.0, -1.0], [0.0, -1.0, 0.0]]
  const LAPLACE: Kernel := [[0.0, -1.0, 0.0], [-1.0, 4.0, -1.0], [0.0, -1.0, 0.0]]

  lemma SumOfThree(f: int -> real)
    ensures Sum(f, -1, 2) == f(-1) + f(0) + f(1)
  {
    assert Sum(f, -1, -1) == 0.0 && Sum(f, -1, 0) == f(-1) && Sum(f, -1, 1) == f(-1) + f(0);
  }

  lemma CoeffAtIs(k: Kernel, i: int, j: int)
    ensures CoeffAt(k)(i, j) == Coeff(k, i + MidRow(k), j + MidCol(k))
  {
  }

  lemma KernelSumOfThree(k: Kernel)
    requires |k| == 3 && |k[0]| == |k[1]| == |k[2]| == 3
    ensures KernelSum(k) == k[0][0] + k[0][1] + k[0][2] + k[1][0] + k[1][1] + k[1][2] + k[2][0] + k[2][1] + k[2][2]
  {
    hide Sum;
    var f := CoeffAt(k);
    assert MidRow(k) == 1 && MidCol(k) == 1;
    SumOfThree(RowSum(f, -1, 2));
    forall i | i == -1 || i == 0 || i == 1 ensures RowSum(f, -1, 2)(i) == k[i + 1][0] + k[i + 1][1] + k[i + 1][2] {
      SumOfThree(j => f(i, j));
      CoeffAtIs(k, i, -1);
      CoeffAtIs(k, i, 0);
      CoeffAtIs(k, i, 1);
    }
  }

  lemma KernelConstants()
    ensures OddKernel(SHARPEN) && KernelSum(SHARPEN) == 1.0
    ensures OddKernel(LAPLACE) && KernelSum(LAPLACE) == 0.0
  {
    KernelSumOfThree(SHARPEN);
    KernelSumOfThree(LAPLACE);
  }

  /** Sharpening commutes with the negative, for every picture. */
  lemma SharpenNegative(p: Picture)
    requires ValidPicture(p)
    ensures Convolve(SHARPEN, Negated(p)) == Negated(Convolve(SHARPEN, p))
  {
    KernelConstants();
    NegativeCommutes(SHARPEN, p);
  }

  function ThresholdPixel(t: real): Pixel -> Pixel {
    (p: Pixel) => if p.r <= t then BLACK else WHITE
  }

  function Edges(p: Picture, threshold: real): (q: Picture)
    requires ValidPicture(p)
    ensures ValidPicture(q) && q.h == p.h && q.w == p.w && Unit(q)
  {
    var q := MapPicture(Convolve(LAPLACE, Grey(p)), ThresholdPixel(threshold));
    assert UnitPixel(BLACK) && UnitPixel(WHITE);
    q
  }

  /** A picture of one colour has no edges, whatever its border. */
  lemma NoEdgesOnConstant(p: Picture, colour: Pixel, threshold: real, row: int, col: int)
    requires ValidPicture(p) && threshold >= 0.0 && Inside(p, row, col)
    requires forall i, j | Inside(p, i, j) :: At(p, i, j) == colour
    ensures At(Edges(p, threshold), row, col) == BLACK
  {
    hide Convolve, KernelSum;
    KernelConstants();
    ConstantPicture(LAPLACE, Grey(p), GreyPixel(colour), row, col, Red);
  }

  // ---------- Crop ----------

  /** `Crop::Apply`: a dimension shrinks only if the argument is smaller, compared as unsigned numbers. */
  function CropTo(size: int, n: nat): (r: nat)
    ensures r <= n && (0 <= size < 0x8000 ==> r == if size < n then size else n)
  {
    if Uint32(size) < n then Uint32(size) else n
  }

  function Cropped(p: Picture, width: int, height: int): (q: Picture)
    requires ValidPicture(p)
    ensures ValidPicture(q) && q.h == CropTo(height, p.h) && q.w == CropTo(width, p.w)
    ensures forall r, c | Inside(q, r, c) :: At(q, r, c) == At(p, r, c)
    ensures Unit(p) ==> Unit(q)
  {
    FromPixels(CropTo(height, p.h), CropTo(width, p.w), (r, c) => At(p, r, c))
  }

  /** Cropping twice is cropping once to the smaller sizes; the order does not matter. */
  lemma CropTwice(p: Picture, w1: int, h1: int, w2: int, h2: int)
    requires ValidPicture(p)
    requires 0 <= w1 < 0x8000 && 0 <= h1 < 0x8000 && 0 <= w2 < 0x8000 && 0 <= h2 < 0x8000
    ensures Cropped(Cropped(p, w1, h1), w2, h2)
            == Cropped(p, if w1 < w2 then w1 else w2, if h1 < h2 then h1 else h2)
  {
    PicturesEqual(Cropped(Cropped(p, w1, h1), w2, h2),
                  Cropped(p, if w1 < w2 then w1 else w2, if h1 < h2 then h1 else h2));
  }

  // ---------- Tunnel ----------

  /** The conversion of a `double` to an integer. */
  function Trunc(x: real): (t: int)
    ensures x >= 0.0 ==> t as real <= x < t as real + 1.0
    ensures x <= 0.0 ==> t as real - 1.0 < x <= t as real
  {
    if x >= 0.0 then x.Floor else -((-x).Floor)
  }

  /** A stored coordinate of 0 stands for the middle. */
  function Centre(stored: int, n: nat): int {
    if stored != 0 then stored else n / 2
  }

  datatype Disc = Disc(row: int, col: int, strength: real, radius: real)

  function Distance(m: MathLib, d: Disc, row: int, col: int): real {
    m.sqrt(Norm2((row - d.row) as real, (col - d.col) as real))
  }

  /** The angle of a pixel, turned the more the nearer it is to the centre. */
  function Angle(m: MathLib, d: Disc, distance: real, row: int, col: int): real
    requires d.radius != 0.0
  {
    m.atan2((row - d.row) as real, (col - d.col) as real) + d.strength * (1.0 - distance / d.radius)
  }

  /** The pixel that the tunnel shows at a position. */
  function TunnelSource(m: MathLib, p: Picture, d: Disc, row: int, col: int): (int, int) {
    var distance := Distance(m, d, row, col);
    if 0.0 < distance < d.radius then
      var angle := Angle(m, d, distance, row, col);
      var s := (d.row + Trunc(Times(distance, m.sin(angle))), d.col + Trunc(Times(distance, m.cos(angle))));
      if Inside(p, s.0, s.1) then s else (row, col)
    else (row, col)
  }

  function Tunnelled(m: MathLib, p: Picture, d: Disc): (q: Picture)
    requires ValidPicture(p)
    ensures ValidPicture(q) && q.h == p.h && q.w == p.w
    ensures forall r, c | Inside(p, r, c) ::
              var s := TunnelSource(m, p, d, r, c);
              Inside(p, s.0, s.1) && At(q, r, c) == At(p, s.0, s.1)
    ensures Unit(p) ==> Unit(q)
  {
    var q := FromPixels(p.h, p.w, (r, c) => var s := TunnelSource(m, p, d, r, c); At(p, s.0, s.1));
    assert forall r, c | Inside(p, r, c) ::
        var s := TunnelSource(m, p, d, r, c); Inside(p, s.0, s.1) && At(q, r, c) == At(p, s.0, s.1);
    q
  }

  lemma TruncShortens(x: real)
    ensures (Trunc(x) as real) * (Trunc(x) as real) <= x * x
  {
    var t := Trunc(x) as real;
    if x >= 0.0 {
      assert 0.0 <= t <= x;
      assert t * t <= t * x <= x * x;
    } else {
      assert x <= t <= 0.0;
      assert (-t) * (-t) <= (-t) * (-x) <= (-x) * (-x);
    }
  }

  function Squared(dr: int, dc: int): int { dr * dr + dc * dc }

  lemma SquaredIsNorm(dr: int, dc: int)
    ensures Squared(dr, dc) as real == Norm2(dr as real, dc as real) && Squared(dr, dc) >= 0
  {
    var (y, x) := (dr as real, dc as real);
    assert (dr * dr) as real == y * y && (dc * dc) as real == x * x;
    assert dr * dr >= 0 && dc * dc >= 0;
  }

  lemma ScaledNorm(d: real, s: real, c: real)
    requires Norm2(s, c) == 1.0
    ensures Norm2(Times(d, s), Times(d, c)) == d * d
  {
    assert (d * s) * (d * s) + (d * c) * (d * c) == (d * d) * (s * s + c * c);
  }

  lemma TruncNorm(y: real, x: real)
    ensures Norm2(Trunc(y) as real, Trunc(x) as real) <= Norm2(y, x)
  {
    hide Trunc;
    TruncShortens(y);
    TruncShortens(x);
  }

  lemma RotationShortens(d: real, s: real, c: real)
    requires Norm2(s, c) == 1.0
    ensures Squared(Trunc(Times(d, s)), Trunc(Times(d, c))) as real <= d * d
  {
    hide Norm2, Times, Trunc, Squared;
    ScaledNorm(d, s, c);
    TruncNorm(Times(d, s), Times(d, c));
    SquaredIsNorm(Trunc(Times(d, s)), Trunc(Times(d, c)));
  }

  lemma PositiveProduct(a: real, b: real, q: real)
    requires a > 0.0 && b > 0.0 && q == a * b
    ensures q > 0.0
  {
  }

  lemma ZeroRoot(x: real, q: real)
    requires q == x * x && q == 0.0
    ensures x == 0.0
  {
    if x > 0.0 { PositiveProduct(x, x, q); } else if x < 0.0 { PositiveProduct(-x, -x, q); }
  }

  lemma UnitCircle(m: MathLib, a: real)
    requires SaneMath(m)
    ensures Norm2(m.sin(a), m.cos(a)) == 1.0
  {
  }

  lemma Root(m: MathLib, x: real)
    requires SaneMath(m) && x >= 0.0
    ensures m.sqrt(x) >= 0.0 && m.sqrt(x) * m.sqrt(x) == x
  {
  }

  lemma DistanceSquared(m: MathLib, d: Disc, row: int, col: int)
    requires SaneMath(m)
    ensures Distance(m, d, row, col) >= 0.0
    ensures Distance(m, d, row, col) * Distance(m, d, row, col) == Squared(row - d.row, col - d.col) as real
  {
    hide SaneMath, Norm2, Squared;
    SquaredIsNorm(row - d.row, col - d.col);
    Root(m, Norm2((row - d.row) as real, (col - d.col) as real));
  }

  lemma TurnedSource(m: MathLib, d: Disc, row: int, col: int, angle: real)
    requires SaneMath(m)
    ensures var distance := Distance(m, d, row, col);
            Squared(Trunc(Times(distance, m.sin(angle))), Trunc(Times(distance, m.cos(angle))))
            <= Squared(row - d.row, col - d.col)
  {
    hide SaneMath, Trunc, Squared, Distance, Times, Norm2;
    DistanceSquared(m, d, row, col);
    UnitCircle(m, angle);
    RotationShortens(Distance(m, d, row, col), m.sin(angle), m.cos(angle));
  }

  lemma SquaredZero(dr: int, dc: int)
    requires dr == 0 && dc == 0
    ensures Squared(dr, dc) == 0
  {
  }

  lemma CentreDistance(m: MathLib, d: Disc)
    requires SaneMath(m)
    ensures Distance(m, d, d.row, d.col) == 0.0
  {
    hide SaneMath, Distance, Squared;
    DistanceSquared(m, d, d.row, d.col);
    SquaredZero(d.row - d.row, d.col - d.col);
    ZeroRoot(Distance(m, d, d.row, d.col), Squared(d.row - d.row, d.col - d.col) as real);
  }

  /** The tunnel leaves the centre and everything outside its radius alone, and elsewhere shows a pixel of the
      picture that is no farther from the centre. */
  lemma TunnelKeepsDisc(m: MathLib, p: Picture, d: Disc, row: int, col: int)
    requires SaneMath(m) && ValidPicture(p) && Inside(p, row, col)
    ensures var s := TunnelSource(m, p, d, row, col);
            && Inside(p, s.0, s.1)
            && Squared(s.0 - d.row, s.1 - d.col) <= Squared(row - d.row, col - d.col)
            && (Distance(m, d, row, col) >= d.radius || (row, col) == (d.row, d.col) ==> s == (row, col))
  {
    hide SaneMath, Trunc, Squared, Distance, Angle, Times;
    var distance := Distance(m, d, row, col);
    CentreDistance(m, d);
    if 0.0 < distance < d.radius {
      var a := Angle(m, d, distance, row, col);
      TurnedSource(m, d, row, col, a);
      var (y, x) := (Trunc(Times(distance, m.sin(a))), Trunc(Times(distance, m.cos(a))));
      assert (d.row + y) - d.row == y && (d.col + x) - d.col == x;
    }
  }

  /** With strength 0 the tunnel is the identity. */
  lemma TunnelZeroStrength(m: MathLib, p: Picture, d: Disc)
    requires SaneMath(m) && PolarMath(m) && ValidPicture(p) && d.strength == 0.0
    ensures Tunnelled(m, p, d) == p
  {
    forall row, col | Inside(p, row, col) ensures At(Tunnelled(m, p, d), row, col) == At(p, row, col) {
      ZeroStrengthSource(m, p, d, row, col);
    }
    PicturesEqual(Tunnelled(m, p, d), p);
  }

  lemma ZeroStrengthAngle(m: MathLib, d: Disc, distance: real, row: int, col: int)
    requires d.strength == 0.0 && d.radius != 0.0
    ensures Angle(m, d, distance, row, col) == m.atan2((row - d.row) as real, (col - d.col) as real)
  {
  }

  lemma ZeroStrengthSource(m: MathLib, p: Picture, d: Disc, row: int, col: int)
    requires PolarMath(m) && d.strength == 0.0
    ensures TunnelSource(m, p, d, row, col) == (row, col)
  {
    hide Trunc, Angle, Times, Norm2;
    TruncOfInteger(row - d.row);
    TruncOfInteger(col - d.col);
    var distance := Distance(m, d, row, col);
    if 0.0 < distance < d.radius {
      ZeroStrengthAngle(m, d, distance, row, col);
    }
  }

  lemma TruncOfInteger(n: int)
    ensures Trunc(n as real) == n
  {
  }

  // ---------- The pipeline ----------

  /** The limits of `int32_t` for the parameters, and what the command line guarantees. */
  predicate InRange(f: Filter) {
    match f
    case Crop(w, h) => -0x8000 <= w < 0x8000 && -0x8000 <= h < 0x8000
    case GaussianBlur(sigma) => sigma >= 0.0 && sigma * 4.0 < 92682.0
    case _ => true
  }

  lemma SquareMonotone(a: nat, b: nat)
    requires a <= b
    ensures Square(a) <= Square(b)
  {
    assert a * a <= a * b <= b * b;
  }

  /** Within these limits neither the kernel size nor a squared distance leaves `int32_t`. */
  lemma BlurFits(sigma: real, col: nat)
    requires InRange(GaussianBlur(sigma)) && col < BlurSize(sigma)
    ensures BlurSize(sigma) < 92682 && SquaredDistance(BlurSize(sigma), col) < 0x8000_0000
  {
    var size := BlurSize(sigma);
    var d: nat := if size / 2 >= col then size / 2 - col else col - size / 2;
    assert Square(46340) == 2147395600;
    hide Square;
    SquareMonotone(d, 46340);
  }

  /** The limit is exact: a larger blur overflows at the end of its kernel. */
  lemma BlurFitsIff(sigma: real)
    requires sigma >= 0.0
    ensures InRange(GaussianBlur(sigma))
            <==> BlurSize(sigma) < 0x8000_0000
                 && forall col | 0 <= col < BlurSize(sigma) :: SquaredDistance(BlurSize(sigma), col) < 0x8000_0000
  {
    var size := BlurSize(sigma);
    if InRange(GaussianBlur(sigma)) {
      forall col | 0 <= col < size ensures SquaredDistance(size, col) < 0x8000_0000 { BlurFits(sigma, col); }
    } else {
      assert size / 2 >= 46341;
      assert Square(46341) == 2147488281;
      hide Square;
      SquareMonotone(46341, size / 2);
      assert SquaredDistance(size, 0) >= 0x8000_0000;
    }
  }

  function BlurWeights(m: MathLib, sigma: real): Weights
    requires SaneMath(m) && sigma > 0.0
  {
    Gaussian(m.bell, sigma, BlurSize(sigma))
  }

  lemma BlurWeightsAverage(m: MathLib, sigma: real)
    requires SaneMath(m) && sigma > 0.0
    ensures Averaging(BlurWeights(m, sigma)) && |BlurWeights(m, sigma)| == BlurSize(sigma)
  {
    GaussianIsAveraging(m.bell, sigma, BlurSize(sigma));
  }

  function Apply(m: MathLib, f: Filter, p: Picture): (r: Result<Picture>)
    requires SaneMath(m) && InRange(f) && ValidPicture(p)
    ensures r.Ok? ==> ValidPicture(r.value) && r.value.h <= p.h && r.value.w <= p.w
    ensures r.Ok? && Unit(p) ==> Unit(r.value)
  {
    match f
    case Crop(w, h) => Ok(Cropped(p, w, h))
    case Grayscale => Ok(Grey(p))
    case Negative => Ok(Negated(p))
    case Sharpening => Ok(Convolve(SHARPEN, p))
    case EdgeDetection(t) => Ok(Edges(p, t))
    case GaussianBlur(sigma) => if sigma == 0.0 then Thrown else Ok(Blurred(BlurWeights(m, sigma), p))
    case Tunnel(h, w, strength, radius) =>
      var d := Disc(Centre(h, p.h), Centre(w, p.w), strength, radius);
      if 0 <= d.row < p.h && 0 <= d.col < p.w then Ok(Tunnelled(m, p, d)) else Thrown
  }

  /** `ApplyFilters`: one filter after another, until one throws.  Every step keeps the picture well formed and
      its channels between 0 and 1. */
  function RunFilters(m: MathLib, fs: seq<Filter>, p: Picture): (r: Result<Picture>)
    requires SaneMath(m) && (forall f | f in fs :: InRange(f)) && ValidPicture(p)
    ensures r.Ok? ==> ValidPicture(r.value) && r.value.h <= p.h && r.value.w <= p.w
    ensures r.Ok? && Unit(p) ==> Unit(r.value)
    decreases |fs|
  {
    if fs == [] then Ok(p)
    else
      match Apply(m, fs[0], p)
      case Thrown => Thrown
      case Ok(q) => RunFilters(m, fs[1..], q)
  }

  /** Running a list in two parts is running the parts one after the other. */
  lemma {:induction false} RunConcat(m: MathLib, a: seq<Filter>, b: seq<Filter>, p: Picture)
    requires SaneMath(m) && ValidPicture(p)
    requires (forall f | f in a :: InRange(f)) && (forall f | f in b :: InRange(f))
    ensures RunFilters(m, a + b, p)
            == match RunFilters(m, a, p)
               case Thrown => Thrown
               case Ok(q) => RunFilters(m, b, q)
    decreases |a|
  {
    if a == [] {
      assert a + b == b;
    } else {
      assert (a + b)[1..] == a[1..] + b;
      if Apply(m, a[0], p).Ok? { RunConcat(m, a[1..], b, Apply(m, a[0], p).value); }
    }
  }
}
