/**
 The two-pass Gaussian blur (image_processor/src/filter.cpp): a row pass, the transposed
 kernel, a column pass, each clamped.  The weights are any non-negative function of the
 squared distance that is positive at the centre.
 */
module Blur {
  import opened Sums
  import opened Pictures

  // ---------- One-dimensional kernels ----------

  type Weights = seq<real>

  function Entry(g: Weights): int -> real {
    i => if 0 <= i < |g| then g[i] else 0.0
  }

  function Mid(g: Weights): int { |g| / 2 }

  /** The weight at an offset from the centre. */
  function Offset(g: Weights): int -> real {
    d => Entry(g)(d + Mid(g))
  }

  function Total(g: Weights): real {
    Sum(Entry(g), 0, |g|)
  }

  ghost predicate Averaging(g: Weights) {
    && |g| % 2 == 1
    && (forall i | 0 <= i < |g| :: g[i] >= 0.0)
    && Total(g) == 1.0
  }

  ghost predicate Symmetric(g: Weights) {
    forall i | 0 <= i < |g| :: g[i] == g[|g| - 1 - i]
  }

  function RowKernel(g: Weights): Kernel { [g] }

  function ColumnKernel(g: Weights): Kernel { Transposed(RowKernel(g)) }

  // ---------- The border rule of one pass ----------

  /** The index that a tap of a pass reads along its own axis. */
  function Line(x: int, d: int, n: int): (y: int)
    ensures 0 <= x < n ==> 0 <= y < n
  {
    var y := Resolve(x + d, n);
    if 0 <= y < n then y else x
  }

  /** The two-dimensional rule reads what the two separate rules read, for all taps, exactly when neither
      axis overshoots at its high end, or the other axis has a single line. */
  lemma BorderRulesAgreeIff(row: int, col: int, h: int, w: int, m: int)
    requires 0 <= row < h && 0 <= col < w && 0 <= m
    ensures (forall i, j {:trigger Source(row, col, i, j, h, w)} | -m <= i <= m && -m <= j <= m ::
               Source(row, col, i, j, h, w) == (Line(row, i, h), Line(col, j, w)))
            <==> (row + m < h || w == 1) && (col + m < w || h == 1)
  {
    if row + m >= h && w > 1 {
      assert Source(row, col, m, -1, h, w) == (row, col) && Line(col, -1, w) != col;
    }
    if col + m >= w && h > 1 {
      assert Source(row, col, -1, m, h, w) == (row, col) && Line(row, -1, h) != row;
    }
  }

  // ---------- What one pass computes ----------

  function AlongRow(g: Weights, p: Picture, row: int, col: int, c: Channel): int -> real
    requires ValidPicture(p)
  {
    d => Offset(g)(d) * Ch(At(p, row, Line(col, d, p.w)), c)
  }

  function AlongColumn(g: Weights, p: Picture, row: int, col: int, c: Channel): int -> real
    requires ValidPicture(p)
  {
    d => Offset(g)(d) * Ch(At(p, Line(row, d, p.h), col), c)
  }

  lemma OneRow(f: (int, int) -> real, lo: int, hi: int)
    ensures Sum2(f, 0, 1, lo, hi) == Sum(j => f(0, j), lo, hi)
  {
    assert Sum(RowSum(f, lo, hi), 0, 0) == 0.0;
  }

  lemma OneColumn(f: (int, int) -> real, lo: int, hi: int)
    ensures Sum2(f, lo, hi, 0, 1) == Sum(i => f(i, 0), lo, hi)
  {
    forall i | lo <= i < hi ensures RowSum(f, 0, 1)(i) == f(i, 0) {
      assert Sum(j => f(i, j), 0, 0) == 0.0;
    }
    SumEqual(RowSum(f, 0, 1), i => f(i, 0), lo, hi);
  }

  lemma RowCoeff(g: Weights, d: int)
    ensures CoeffAt(RowKernel(g))(0, d) == Offset(g)(d)
  {
    var k := RowKernel(g);
    assert k[0] == g && MidRow(k) == 0 && MidCol(k) == Mid(g);
    assert CoeffAt(k)(0, d) == Coeff(k, 0, d + Mid(g)) == Entry(g)(d + Mid(g));
  }

  lemma ColumnCoeff(g: Weights, d: int)
    requires g != []
    ensures MidRow(ColumnKernel(g)) == Mid(g) && MidCol(ColumnKernel(g)) == 0
    ensures CoeffAt(ColumnKernel(g))(d, 0) == Offset(g)(d)
  {
    var (k, i) := (ColumnKernel(g), d + Mid(g));
    assert |k| == |g| && |k[0]| == 1;
    assert MidRow(k) == Mid(g) && MidCol(k) == 0;
    assert CoeffAt(k)(d, 0) == Coeff(k, d + MidRow(k), 0 + MidCol(k)) == Coeff(k, i, 0);
    if 0 <= i < |g| {
      assert k[i][0] == Coeff(RowKernel(g), 0, i) == g[i];
    }
    assert Coeff(k, i, 0) == Entry(g)(i) == Offset(g)(d);
  }

  lemma PassKernelsOdd(g: Weights)
    requires |g| % 2 == 1
    ensures OddKernel(RowKernel(g)) && OddKernel(ColumnKernel(g))
    ensures |ColumnKernel(g)| == |g| && |ColumnKernel(g)[0]| == 1
  {
    assert |ColumnKernel(g)| == |g| && forall i | 0 <= i < |g| :: |ColumnKernel(g)[i]| == 1;
  }

  lemma RowTap(g: Weights, p: Picture, row: int, col: int, c: Channel, d: int)
    requires ValidPicture(p) && Inside(p, row, col)
    ensures Tap(RowKernel(g), p, row, col, c)(0, d) == AlongRow(g, p, row, col, c)(d)
  {
    RowCoeff(g, d);
  }

  lemma ColumnTap(g: Weights, p: Picture, row: int, col: int, c: Channel, d: int)
    requires ValidPicture(p) && Inside(p, row, col) && g != []
    ensures Tap(ColumnKernel(g), p, row, col, c)(d, 0) == AlongColumn(g, p, row, col, c)(d)
  {
    ColumnCoeff(g, d);
  }

  lemma RowPass(g: Weights, p: Picture, row: int, col: int, c: Channel)
    requires ValidPicture(p) && Inside(p, row, col)
    ensures Weighted(RowKernel(g), p, row, col, c) == Sum(AlongRow(g, p, row, col, c), -Mid(g), Mid(g) + 1)
  {
    hide Sum, Source;
    var t := Tap(RowKernel(g), p, row, col, c);
    OneRow(t, -Mid(g), Mid(g) + 1);
    forall d ensures t(0, d) == AlongRow(g, p, row, col, c)(d) { RowTap(g, p, row, col, c, d); }
    SumEqual(d => t(0, d), AlongRow(g, p, row, col, c), -Mid(g), Mid(g) + 1);
  }

  lemma ColumnPass(g: Weights, p: Picture, row: int, col: int, c: Channel)
    requires ValidPicture(p) && Inside(p, row, col) && g != []
    ensures Weighted(ColumnKernel(g), p, row, col, c) == Sum(AlongColumn(g, p, row, col, c), -Mid(g), Mid(g) + 1)
  {
    hide Sum, Source;
    var t := Tap(ColumnKernel(g), p, row, col, c);
    ColumnCoeff(g, 0);
    OneColumn(t, -Mid(g), Mid(g) + 1);
    forall d ensures t(d, 0) == AlongColumn(g, p, row, col, c)(d) { ColumnTap(g, p, row, col, c, d); }
    SumEqual(d => t(d, 0), AlongColumn(g, p, row, col, c), -Mid(g), Mid(g) + 1);
  }

  lemma PassSums(g: Weights)
    requires |g| % 2 == 1
    ensures KernelSum(RowKernel(g)) == Total(g) && KernelSum(ColumnKernel(g)) == Total(g)
  {
    hide Sum;
    var m := Mid(g);
    var (r, c) := (CoeffAt(RowKernel(g)), CoeffAt(ColumnKernel(g)));
    ColumnCoeff(g, 0);
    OneRow(r, -m, m + 1);
    OneColumn(c, -m, m + 1);
    forall d ensures r(0, d) == Entry(g)(d + m) && c(d, 0) == Entry(g)(d + m) {
      RowCoeff(g, d);
      ColumnCoeff(g, d);
    }
    SumShift(Entry(g), d => r(0, d), -m, m + 1, m);
    SumShift(Entry(g), d => c(d, 0), -m, m + 1, m);
  }

  lemma PassKernels(g: Weights)
    requires Averaging(g)
    ensures NonNegative(RowKernel(g)) && KernelSum(RowKernel(g)) == 1.0
    ensures NonNegative(ColumnKernel(g)) && KernelSum(ColumnKernel(g)) == 1.0
  {
    PassSums(g);
  }

  // ---------- The blur ----------

  function Blurred(g: Weights, p: Picture): (q: Picture)
    requires ValidPicture(p)
    ensures ValidPicture(q) && q.h == p.h && q.w == p.w && Unit(q)
  {
    Convolve(ColumnKernel(g), Convolve(RowKernel(g), p))
  }

  /** The two-dimensional sum: outer-product weights, a separate border rule for each axis, no clamp. */
  function Product(g: Weights, p: Picture, row: int, col: int, c: Channel): (int, int) -> real
    requires ValidPicture(p)
  {
    (i, j) => Offset(g)(i) * (Offset(g)(j) * Ch(At(p, Line(row, i, p.h), Line(col, j, p.w)), c))
  }

  function Blur2(g: Weights, p: Picture, row: int, col: int, c: Channel): real
    requires ValidPicture(p)
  {
    Sum2(Product(g, p, row, col, c), -Mid(g), Mid(g) + 1, -Mid(g), Mid(g) + 1)
  }

  /** On channels between 0 and 1 the clamp of a pass does nothing. */
  lemma PassUnclamped(k: Kernel, p: Picture, row: int, col: int, c: Channel)
    requires ValidPicture(p) && Unit(p) && Inside(p, row, col) && NonNegative(k) && KernelSum(k) == 1.0
    ensures Ch(At(Convolve(k, p), row, col), c) == Weighted(k, p, row, col, c)
  {
    WeightedBounds(k, p, row, col, c, 0.0, 1.0);
  }

  lemma RowPassValue(g: Weights, p: Picture, row: int, col: int, c: Channel)
    requires ValidPicture(p) && Unit(p) && Averaging(g) && Inside(p, row, col)
    ensures Ch(At(Convolve(RowKernel(g), p), row, col), c) == Sum(AlongRow(g, p, row, col, c), -Mid(g), Mid(g) + 1)
  {
    PassKernels(g);
    PassUnclamped(RowKernel(g), p, row, col, c);
    RowPass(g, p, row, col, c);
  }

  lemma ColumnPassValue(g: Weights, p: Picture, row: int, col: int, c: Channel)
    requires ValidPicture(p) && Unit(p) && Averaging(g) && Inside(p, row, col)
    ensures Ch(At(Convolve(ColumnKernel(g), p), row, col), c)
            == Sum(AlongColumn(g, p, row, col, c), -Mid(g), Mid(g) + 1)
  {
    PassKernels(g);
    PassUnclamped(ColumnKernel(g), p, row, col, c);
    ColumnPass(g, p, row, col, c);
  }

  lemma SameFactor(a: real, b: real, c: real)
    requires b == c
    ensures a * b == a * c
  {
  }

  /** A product entry is the row weight times what the row pass, or the column weight times what the column
      pass, adds at that tap. */
  lemma ProductEntry(g: Weights, p: Picture, row: int, col: int, c: Channel, i: int, j: int)
    requires ValidPicture(p)
    ensures Product(g, p, row, col, c)(i, j) == Offset(g)(i) * AlongRow(g, p, Line(row, i, p.h), col, c)(j)
    ensures Product(g, p, row, col, c)(i, j) == Offset(g)(j) * AlongColumn(g, p, row, Line(col, j, p.w), c)(i)
  {
    hide Line, Offset;
    var (a, b, x) := (Offset(g)(i), Offset(g)(j), Ch(At(p, Line(row, i, p.h), Line(col, j, p.w)), c));
    SameFactor(a, b * x, AlongRow(g, p, Line(row, i, p.h), col, c)(j));
    SameFactor(b, a * x, AlongColumn(g, p, row, Line(col, j, p.w), c)(i));
    assert a * (b * x) == b * (a * x);
  }

  lemma SeparableRow(g: Weights, p: Picture, row: int, col: int, c: Channel, i: int)
    requires ValidPicture(p) && Unit(p) && Averaging(g) && Inside(p, row, col)
    ensures AlongColumn(g, Convolve(RowKernel(g), p), row, col, c)(i)
            == RowSum(Product(g, p, row, col, c), -Mid(g), Mid(g) + 1)(i)
  {
    hide Sum, Convolve, Line, Offset, Product, AlongRow;
    var (m, r) := (Mid(g), Line(row, i, p.h));
    var along := AlongRow(g, p, r, col, c);
    RowPassValue(g, p, r, col, c);
    var products := (j: int) => Product(g, p, row, col, c)(i, j);
    forall j ensures products(j) == Offset(g)(i) * along(j) {
      ProductEntry(g, p, row, col, c, i, j);
    }
    SumScale(Offset(g)(i), along, products, -m, m + 1);
  }

  /** Row pass, transposition and column pass together are one two-dimensional sum, unclamped. */
  lemma Separable(g: Weights, p: Picture, row: int, col: int, c: Channel)
    requires ValidPicture(p) && Unit(p) && Averaging(g) && Inside(p, row, col)
    ensures Ch(At(Blurred(g, p), row, col), c) == Blur2(g, p, row, col, c)
  {
    hide Sum, Convolve, Resolve;
    var (m, q) := (Mid(g), Convolve(RowKernel(g), p));
    ColumnPassValue(g, q, row, col, c);
    forall i ensures AlongColumn(g, q, row, col, c)(i) == RowSum(Product(g, p, row, col, c), -m, m + 1)(i) {
      SeparableRow(g, p, row, col, c, i);
    }
    SumEqual(AlongColumn(g, q, row, col, c), RowSum(Product(g, p, row, col, c), -m, m + 1), -m, m + 1);
  }

  lemma FlippedEntry(g: Weights, p: Picture, row: int, col: int, c: Channel, j: int, i: int)
    requires ValidPicture(p)
    ensures Flip(Product(g, p, row, col, c))(j, i)
            == Offset(g)(j) * AlongColumn(g, p, row, Line(col, j, p.w), c)(i)
  {
    hide Resolve, Offset;
    FlipEntry(Product(g, p, row, col, c), i, j);
    ProductEntry(g, p, row, col, c, i, j);
  }

  lemma FlippedRow(g: Weights, p: Picture, row: int, col: int, c: Channel, j: int)
    requires ValidPicture(p) && Unit(p) && Averaging(g) && Inside(p, row, col)
    ensures AlongRow(g, Convolve(ColumnKernel(g), p), row, col, c)(j)
            == RowSum(Flip(Product(g, p, row, col, c)), -Mid(g), Mid(g) + 1)(j)
  {
    hide Sum, Convolve, Line, Offset, Flip, Product, AlongColumn;
    var (m, cc) := (Mid(g), Line(col, j, p.w));
    var along := AlongColumn(g, p, row, cc, c);
    ColumnPassValue(g, p, row, cc, c);
    var flipped := Flip(Product(g, p, row, col, c));
    var products := (i: int) => flipped(j, i);
    forall i ensures products(i) == Offset(g)(j) * along(i) {
      FlippedEntry(g, p, row, col, c, j, i);
    }
    SumScale(Offset(g)(j), along, products, -m, m + 1);
  }

  /** The passes in the other order give the sum over the flipped table. */
  lemma SeparableFlipped(g: Weights, p: Picture, row: int, col: int, c: Channel)
    requires ValidPicture(p) && Unit(p) && Averaging(g) && Inside(p, row, col)
    ensures Ch(At(Convolve(RowKernel(g), Convolve(ColumnKernel(g), p)), row, col), c)
            == Sum2(Flip(Product(g, p, row, col, c)), -Mid(g), Mid(g) + 1, -Mid(g), Mid(g) + 1)
  {
    hide Sum, Convolve, Resolve;
    var (m, q) := (Mid(g), Convolve(ColumnKernel(g), p));
    var flipped := Flip(Product(g, p, row, col, c));
    RowPassValue(g, q, row, col, c);
    forall j ensures AlongRow(g, q, row, col, c)(j) == RowSum(flipped, -m, m + 1)(j) {
      FlippedRow(g, p, row, col, c, j);
    }
    SumEqual(AlongRow(g, q, row, col, c), RowSum(flipped, -m, m + 1), -m, m + 1);
  }

  /** The two passes commute. */
  lemma PassesCommute(g: Weights, p: Picture)
    requires ValidPicture(p) && Unit(p) && Averaging(g)
    ensures Convolve(RowKernel(g), Convolve(ColumnKernel(g), p)) == Blurred(g, p)
  {
    hide Sum, Convolve;
    var (left, right) := (Convolve(RowKernel(g), Convolve(ColumnKernel(g), p)), Blurred(g, p));
    forall r, c | Inside(p, r, c) ensures At(left, r, c) == At(right, r, c) {
      forall ch ensures Ch(At(left, r, c), ch) == Ch(At(right, r, c), ch) {
        Separable(g, p, r, c, ch);
        SeparableFlipped(g, p, r, c, ch);
        Sum2Flip(Product(g, p, r, c, ch), -Mid(g), Mid(g) + 1, -Mid(g), Mid(g) + 1);
      }
      PixelsEqual(At(left, r, c), At(right, r, c));
    }
    PicturesEqual(left, right);
  }

  function OuterKernel(g: Weights): Kernel {
    seq(|g|, i requires 0 <= i < |g| => seq(|g|, j requires 0 <= j < |g| => g[i] * g[j]))
  }

  lemma OuterCoeff(g: Weights, i: int, j: int)
    requires |g| % 2 == 1 && -Mid(g) <= i <= Mid(g) && -Mid(g) <= j <= Mid(g)
    ensures MidRow(OuterKernel(g)) == MidCol(OuterKernel(g)) == Mid(g)
    ensures CoeffAt(OuterKernel(g))(i, j) == Offset(g)(i) * Offset(g)(j)
  {
    var (k, m) := (OuterKernel(g), Mid(g));
    assert |k| == |g| && |k[0]| == |g| && MidRow(k) == m && MidCol(k) == m;
    assert k[i + m][j + m] == g[i + m] * g[j + m];
    assert CoeffAt(k)(i, j) == Coeff(k, i + MidRow(k), j + MidCol(k)) == k[i + m][j + m];
    assert Offset(g)(i) == Entry(g)(i + m) == g[i + m] && Offset(g)(j) == Entry(g)(j + m) == g[j + m];
  }

  lemma OuterTap(g: Weights, p: Picture, row: int, col: int, c: Channel, i: int, j: int)
    requires ValidPicture(p) && |g| % 2 == 1 && -Mid(g) <= i <= Mid(g) && -Mid(g) <= j <= Mid(g)
    requires Source(row, col, i, j, p.h, p.w) == (Line(row, i, p.h), Line(col, j, p.w))
    ensures Tap(OuterKernel(g), p, row, col, c)(i, j) == Product(g, p, row, col, c)(i, j)
  {
    hide Resolve, Line, OuterKernel, Source;
    OuterCoeff(g, i, j);
    var x := Ch(SourcePixel(p, row, col, i, j), c);
    SameFactor(x, CoeffAt(OuterKernel(g))(i, j), Offset(g)(i) * Offset(g)(j));
    assert Product(g, p, row, col, c)(i, j) == Offset(g)(i) * (Offset(g)(j) * x);
  }

  lemma OuterWeighted(g: Weights, p: Picture, row: int, col: int, c: Channel)
    requires ValidPicture(p) && |g| % 2 == 1 && Inside(p, row, col)
    requires (row + Mid(g) < p.h || p.w == 1) && (col + Mid(g) < p.w || p.h == 1)
    ensures Weighted(OuterKernel(g), p, row, col, c) == Blur2(g, p, row, col, c)
  {
    hide Sum, Resolve, Line;
    var m := Mid(g);
    BorderRulesAgreeIff(row, col, p.h, p.w, m);
    var t := Tap(OuterKernel(g), p, row, col, c);
    forall i, j | -m <= i < m + 1 && -m <= j < m + 1 ensures t(i, j) == Product(g, p, row, col, c)(i, j) {
      OuterTap(g, p, row, col, c, i, j);
    }
    Sum2Equal(t, Product(g, p, row, col, c), -m, m + 1, -m, m + 1);
  }

  /** Away from the bottom and right borders the blur equals one convolution by the outer-product kernel. */
  lemma OuterProductInside(g: Weights, p: Picture, row: int, col: int)
    requires ValidPicture(p) && Unit(p) && Averaging(g) && Inside(p, row, col)
    requires (row + Mid(g) < p.h || p.w == 1) && (col + Mid(g) < p.w || p.h == 1)
    ensures At(Convolve(OuterKernel(g), p), row, col) == At(Blurred(g, p), row, col)
  {
    hide Blurred, Blur2, Weighted;
    var (x, y) := (At(Convolve(OuterKernel(g), p), row, col), At(Blurred(g, p), row, col));
    assert UnitPixel(y);
    forall c ensures Ch(x, c) == Ch(y, c) {
      Separable(g, p, row, col, c);
      OuterWeighted(g, p, row, col, c);
    }
    PixelsEqual(x, y);
  }

  /** The blur keeps the bounds of every channel. */
  lemma BlurBounds(g: Weights, p: Picture, c: Channel, lo: real, hi: real)
    requires ValidPicture(p) && Averaging(g) && 0.0 <= lo && hi <= 1.0
    requires forall i, j | Inside(p, i, j) :: lo <= Ch(At(p, i, j), c) <= hi
    ensures forall i, j | Inside(p, i, j) :: lo <= Ch(At(Blurred(g, p), i, j), c) <= hi
  {
    PassKernels(g);
    MaximumPrinciple(RowKernel(g), p, c, lo, hi);
    MaximumPrinciple(ColumnKernel(g), Convolve(RowKernel(g), p), c, lo, hi);
  }

  /** The blur commutes with the negative. */
  lemma BlurNegative(g: Weights, p: Picture)
    requires ValidPicture(p) && Averaging(g)
    ensures Blurred(g, Negated(p)) == Negated(Blurred(g, p))
  {
    PassKernels(g);
    NegativeCommutes(RowKernel(g), p);
    NegativeCommutes(ColumnKernel(g), Convolve(RowKernel(g), p));
  }

  /** The blur commutes with the conversion to grey. */
  lemma BlurGrey(g: Weights, p: Picture)
    requires ValidPicture(p) && Unit(p) && Averaging(g)
    ensures Blurred(g, Grey(p)) == Grey(Blurred(g, p))
  {
    PassKernels(g);
    GreyCommutes(RowKernel(g), p);
    GreyCommutes(ColumnKernel(g), Convolve(RowKernel(g), p));
  }

  // ---------- The Gaussian weights ----------

  /** The size of the kernel: four sigmas, truncated, and made odd. */
  function BlurSize(sigma: real): (n: int)
    requires sigma >= 0.0
    ensures n > 0 && n % 2 == 1
    ensures sigma * 4.0 - 1.0 < n as real <= sigma * 4.0 + 1.0
  {
    var size := (sigma * 4.0).Floor;
    if size % 2 == 0 then size + 1 else size
  }

  /** A weight for each sigma and squared distance. */
  type Bell = (real, nat) -> real

  ghost predicate IsBell(bell: Bell, sigma: real) {
    bell(sigma, 0) > 0.0 && forall d :: bell(sigma, d) >= 0.0
  }

  function Square(d: nat): nat { d * d }

  function SquaredDistance(size: nat, col: int): nat {
    Square(if size / 2 >= col then size / 2 - col else col - size / 2)
  }

  function Raw(bell: Bell, sigma: real, size: nat): Weights {
    seq(size, col => bell(sigma, SquaredDistance(size, col)))
  }

  function Normalised(raw: Weights): Weights
    requires Total(raw) != 0.0
  {
    seq(|raw|, i requires 0 <= i < |raw| => raw[i] / Total(raw))
  }

  lemma {:induction false} TotalPositive(g: Weights, n: nat, i: nat)
    requires i < n <= |g| && g[i] > 0.0 && forall j | 0 <= j < |g| :: g[j] >= 0.0
    ensures Sum(Entry(g), 0, n) > 0.0
    decreases n
  {
    if i < n - 1 {
      TotalPositive(g, n - 1, i);
    } else {
      SumZero(0, n - 1);
      SumMonotone(_ => 0.0, Entry(g), 0, n - 1);
    }
  }

  lemma RawTotal(bell: Bell, sigma: real, size: nat)
    requires IsBell(bell, sigma) && size % 2 == 1
    ensures Total(Raw(bell, sigma, size)) > 0.0
  {
    assert SquaredDistance(size, size / 2) == 0;
    var raw := Raw(bell, sigma, size);
    forall j | 0 <= j < size ensures raw[j] >= 0.0 { assert raw[j] == bell(sigma, SquaredDistance(size, j)); }
    TotalPositive(raw, size, size / 2);
  }

  function Gaussian(bell: Bell, sigma: real, size: nat): Weights
    requires IsBell(bell, sigma) && size % 2 == 1
  {
    RawTotal(bell, sigma, size);
    Normalised(Raw(bell, sigma, size))
  }

  lemma ScaledEntry(x: real, total: real)
    requires x >= 0.0 && total > 0.0
    ensures x / total >= 0.0 && x / total == 1.0 / total * x
  {
  }

  lemma MirroredDistance(size: nat, i: nat)
    requires size % 2 == 1 && i < size
    ensures SquaredDistance(size, i) == SquaredDistance(size, size - 1 - i)
  {
    hide Square;
  }

  /** The computed kernel is non-negative, adds up to one and is symmetric. */
  lemma GaussianIsAveraging(bell: Bell, sigma: real, size: nat)
    requires IsBell(bell, sigma) && size % 2 == 1
    ensures |Gaussian(bell, sigma, size)| == size
    ensures Averaging(Gaussian(bell, sigma, size)) && Symmetric(Gaussian(bell, sigma, size))
  {
    hide Sum, SquaredDistance;
    var raw := Raw(bell, sigma, size);
    RawTotal(bell, sigma, size);
    var g := Gaussian(bell, sigma, size);
    forall i | 0 <= i < size
      ensures g[i] >= 0.0 && Entry(g)(i) == 1.0 / Total(raw) * Entry(raw)(i) && g[i] == g[size - 1 - i]
    {
      assert raw[i] == bell(sigma, SquaredDistance(size, i));
      ScaledEntry(raw[i], Total(raw));
      MirroredDistance(size, i);
    }
    SumScale(1.0 / Total(raw), Entry(raw), Entry(g), 0, size);
  }
}
