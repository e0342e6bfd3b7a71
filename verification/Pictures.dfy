/**
 Pictures and kernels as values, and the convolution with the border rule of the code
 (image_processor/src/image.cpp).  Channels are exact real numbers.
 */
module Pictures {
  import opened Sums

  datatype Pixel = Pixel(r: real, g: real, b: real)

  datatype Channel = Red | Green | Blue

  function Ch(p: Pixel, c: Channel): real {
    match c
    case Red => p.r
    case Green => p.g
    case Blue => p.b
  }

  lemma PixelsEqual(p: Pixel, q: Pixel)
    requires forall c :: Ch(p, c) == Ch(q, c)
    ensures p == q
  {
    assert Ch(p, Red) == Ch(q, Red) && Ch(p, Green) == Ch(q, Green) && Ch(p, Blue) == Ch(q, Blue);
  }

  const BLACK := Pixel(0.0, 0.0, 0.0)
  const WHITE := Pixel(1.0, 1.0, 1.0)

  /** A picture with `h` rows of `w` pixels. */
  datatype Picture = Picture(h: nat, w: nat, px: seq<seq<Pixel>>)

  ghost predicate ValidPicture(p: Picture) {
    |p.px| == p.h && forall r | 0 <= r < p.h :: |p.px[r]| == p.w
  }

  predicate Inside(p: Picture, row: int, col: int) {
    0 <= row < p.h && 0 <= col < p.w
  }

  function At(p: Picture, row: int, col: int): Pixel
    requires ValidPicture(p)
  {
    if Inside(p, row, col) then p.px[row][col] else BLACK
  }

  function FromPixels(h: nat, w: nat, f: (int, int) -> Pixel): (p: Picture)
    ensures ValidPicture(p) && p.h == h && p.w == w
    ensures forall r, c | 0 <= r < h && 0 <= c < w :: At(p, r, c) == f(r, c)
  {
    Picture(h, w, seq(h, r => seq(w, c => f(r, c))))
  }

  lemma PicturesEqual(p: Picture, q: Picture)
    requires ValidPicture(p) && ValidPicture(q) && p.h == q.h && p.w == q.w
    requires forall r, c | Inside(p, r, c) :: At(p, r, c) == At(q, r, c)
    ensures p == q
  {
    forall r | 0 <= r < p.h ensures p.px[r] == q.px[r] {
      forall c | 0 <= c < p.w ensures p.px[r][c] == q.px[r][c] {
        assert Inside(p, r, c) && At(p, r, c) == At(q, r, c);
      }
    }
  }

  ghost predicate UnitPixel(p: Pixel) {
    forall c :: 0.0 <= Ch(p, c) <= 1.0
  }

  /** All channels lie between 0 and 1. */
  ghost predicate Unit(p: Picture)
    requires ValidPicture(p)
  {
    forall r, c | Inside(p, r, c) :: UnitPixel(At(p, r, c))
  }

  // ---------- Kernels ----------

  type Kernel = seq<seq<real>>

  ghost predicate OddKernel(k: Kernel) {
    && |k| % 2 == 1
    && |k[0]| % 2 == 1
    && forall i | 0 <= i < |k| :: |k[i]| == |k[0]|
  }

  function MidRow(k: Kernel): int { |k| / 2 }

  function MidCol(k: Kernel): int { if k == [] then 0 else |k[0]| / 2 }

  function Coeff(k: Kernel, i: int, j: int): real {
    if 0 <= i < |k| && 0 <= j < |k[i]| then k[i][j] else 0.0
  }

  /** The coefficient at an offset from the centre. */
  function CoeffAt(k: Kernel): (int, int) -> real {
    (dr, dc) => Coeff(k, dr + MidRow(k), dc + MidCol(k))
  }

  function KernelSum(k: Kernel): real {
    Sum2(CoeffAt(k), -MidRow(k), MidRow(k) + 1, -MidCol(k), MidCol(k) + 1)
  }

  ghost predicate NonNegative(k: Kernel) {
    forall i, j {:trigger k[i][j]} | 0 <= i < |k| && 0 <= j < |k[i]| :: k[i][j] >= 0.0
  }

  function Transposed(k: Kernel): Kernel {
    if k == [] then [] else seq(|k[0]|, j => seq(|k|, i => Coeff(k, i, j)))
  }

  // ---------- The border rule ----------

  /** One coordinate: overshoot at the low end is reflected, overshoot at the high end becomes negative. */
  function Resolve(x: int, n: int): int {
    var y := if x < 0 then -x else x;
    if n <= y then n - 1 - y else y
  }

  /** The pixel that a tap reads: both coordinates resolved, or the centre if that is not inside. */
  function Source(row: int, col: int, dr: int, dc: int, h: int, w: int): (s: (int, int))
    ensures 0 <= row < h && 0 <= col < w ==> 0 <= s.0 < h && 0 <= s.1 < w
  {
    var (r, c) := (Resolve(row + dr, h), Resolve(col + dc, w));
    if 0 <= r < h && 0 <= c < w then (r, c) else (row, col)
  }

  // ---------- Convolution ----------

  function SourcePixel(p: Picture, row: int, col: int, dr: int, dc: int): Pixel
    requires ValidPicture(p)
  {
    var s := Source(row, col, dr, dc, p.h, p.w);
    At(p, s.0, s.1)
  }

  /** What each tap contributes to one channel of one pixel. */
  function Tap(k: Kernel, p: Picture, row: int, col: int, c: Channel): (int, int) -> real
    requires ValidPicture(p)
  {
    (dr, dc) => CoeffAt(k)(dr, dc) * Ch(SourcePixel(p, row, col, dr, dc), c)
  }

  function Weighted(k: Kernel, p: Picture, row: int, col: int, c: Channel): real
    requires ValidPicture(p)
  {
    Sum2(Tap(k, p, row, col, c), -MidRow(k), MidRow(k) + 1, -MidCol(k), MidCol(k) + 1)
  }

  function Clamp(x: real): (y: real)
    ensures 0.0 <= y <= 1.0 && (0.0 <= x <= 1.0 ==> y == x)
    ensures (x < 0.0 ==> y == 0.0) && (x > 1.0 ==> y == 1.0)
  {
    var m := if x < 0.0 then 0.0 else x;
    if m > 1.0 then 1.0 else m
  }

  function ClampPixel(p: Pixel): Pixel {
    Pixel(Clamp(p.r), Clamp(p.g), Clamp(p.b))
  }

  function WeightedPixel(k: Kernel, p: Picture, row: int, col: int): Pixel
    requires ValidPicture(p)
  {
    Pixel(Weighted(k, p, row, col, Red), Weighted(k, p, row, col, Green), Weighted(k, p, row, col, Blue))
  }

  function Convolve(k: Kernel, p: Picture): (q: Picture)
    requires ValidPicture(p)
    ensures ValidPicture(q) && q.h == p.h && q.w == p.w && Unit(q)
    ensures forall r, c, ch | Inside(p, r, c) :: Ch(At(q, r, c), ch) == Clamp(Weighted(k, p, r, c, ch))
  {
    FromPixels(p.h, p.w, (r, c) => ClampPixel(WeightedPixel(k, p, r, c)))
  }

  // ---------- Theorems about one convolution ----------

  lemma Between(a: real, lo: real, x: real, hi: real)
    requires a >= 0.0 && lo <= x <= hi
    ensures lo * a <= a * x <= hi * a
  {
    assert a * (x - lo) >= 0.0 && a * (hi - x) >= 0.0;
  }

  lemma CoeffNonNegative(k: Kernel, i: int, j: int)
    requires NonNegative(k)
    ensures Coeff(k, i, j) >= 0.0
  {
    if 0 <= i < |k| && 0 <= j < |k[i]| { assert k[i][j] >= 0.0; }
  }

  lemma TapBounds(k: Kernel, p: Picture, row: int, col: int, c: Channel, lo: real, hi: real, dr: int, dc: int)
    requires ValidPicture(p) && Inside(p, row, col) && NonNegative(k)
    requires forall i, j | Inside(p, i, j) :: lo <= Ch(At(p, i, j), c) <= hi
    ensures lo * CoeffAt(k)(dr, dc) <= Tap(k, p, row, col, c)(dr, dc) <= hi * CoeffAt(k)(dr, dc)
  {
    hide Source, Coeff, NonNegative, MidRow, MidCol;
    var s := Source(row, col, dr, dc, p.h, p.w);
    assert Inside(p, s.0, s.1);
    var (a, x) := (CoeffAt(k)(dr, dc), Ch(SourcePixel(p, row, col, dr, dc), c));
    CoeffNonNegative(k, dr + MidRow(k), dc + MidCol(k));
    assert a == Coeff(k, dr + MidRow(k), dc + MidCol(k));
    Between(a, lo, x, hi);
    assert Tap(k, p, row, col, c)(dr, dc) == a * x;
  }

  /** With non-negative coefficients that add up to one the result lies between the bounds of the picture. */
  lemma WeightedBounds(k: Kernel, p: Picture, row: int, col: int, c: Channel, lo: real, hi: real)
    requires ValidPicture(p) && Inside(p, row, col)
    requires NonNegative(k) && KernelSum(k) == 1.0
    requires forall i, j | Inside(p, i, j) :: lo <= Ch(At(p, i, j), c) <= hi
    ensures lo <= Weighted(k, p, row, col, c) <= hi
  {
    hide Sum, Source;
    forall dr, dc
      ensures lo * CoeffAt(k)(dr, dc) <= Tap(k, p, row, col, c)(dr, dc) <= hi * CoeffAt(k)(dr, dc)
    {
      TapBounds(k, p, row, col, c, lo, hi, dr, dc);
    }
    Sum2Bounds(CoeffAt(k), Tap(k, p, row, col, c), lo, hi, -MidRow(k), MidRow(k) + 1, -MidCol(k), MidCol(k) + 1);
  }

  /** Maximum principle: an averaging kernel keeps the bounds of every channel, and its clamp does nothing. */
  lemma MaximumPrinciple(k: Kernel, p: Picture, c: Channel, lo: real, hi: real)
    requires ValidPicture(p) && NonNegative(k) && KernelSum(k) == 1.0
    requires 0.0 <= lo && hi <= 1.0
    requires forall i, j | Inside(p, i, j) :: lo <= Ch(At(p, i, j), c) <= hi
    ensures forall i, j | Inside(p, i, j) ::
              && lo <= Ch(At(Convolve(k, p), i, j), c) <= hi
              && Ch(At(Convolve(k, p), i, j), c) == Weighted(k, p, i, j, c)
  {
    forall i, j | Inside(p, i, j) ensures lo <= Weighted(k, p, i, j, c) <= hi {
      WeightedBounds(k, p, i, j, c, lo, hi);
    }
  }

  lemma ConstantTap(k: Kernel, p: Picture, colour: Pixel, row: int, col: int, c: Channel, dr: int, dc: int)
    requires ValidPicture(p) && Inside(p, row, col)
    requires forall i, j | Inside(p, i, j) :: At(p, i, j) == colour
    ensures Tap(k, p, row, col, c)(dr, dc) == Ch(colour, c) * CoeffAt(k)(dr, dc)
  {
    var s := Source(row, col, dr, dc, p.h, p.w);
    assert Inside(p, s.0, s.1);
  }

  lemma ConstantWeighted(k: Kernel, p: Picture, colour: Pixel, row: int, col: int, c: Channel)
    requires ValidPicture(p) && Inside(p, row, col)
    requires forall i, j | Inside(p, i, j) :: At(p, i, j) == colour
    ensures Weighted(k, p, row, col, c) == Ch(colour, c) * KernelSum(k)
  {
    hide Sum, Source;
    forall dr, dc ensures Tap(k, p, row, col, c)(dr, dc) == Ch(colour, c) * CoeffAt(k)(dr, dc) {
      ConstantTap(k, p, colour, row, col, c, dr, dc);
    }
    Sum2Scale(Ch(colour, c), CoeffAt(k), Tap(k, p, row, col, c),
              -MidRow(k), MidRow(k) + 1, -MidCol(k), MidCol(k) + 1);
  }

  /** On a picture of one colour every kernel multiplies that colour by its sum, borders included. */
  lemma ConstantPicture(k: Kernel, p: Picture, colour: Pixel, row: int, col: int, c: Channel)
    requires ValidPicture(p) && Inside(p, row, col)
    requires forall i, j | Inside(p, i, j) :: At(p, i, j) == colour
    ensures Ch(At(Convolve(k, p), row, col), c) == Clamp(KernelSum(k) * Ch(colour, c))
  {
    ConstantWeighted(k, p, colour, row, col, c);
  }

  // ---------- Pointwise filters ----------

  function NegativePixel(p: Pixel): Pixel {
    Pixel(1.0 - p.r, 1.0 - p.g, 1.0 - p.b)
  }

  function GreyOf(p: Pixel): real {
    p.r * 0.299 + p.g * 0.587 + p.b * 0.114
  }

  function GreyPixel(p: Pixel): Pixel {
    var v := Clamp(GreyOf(p));
    Pixel(v, v, v)
  }

  function MapPicture(p: Picture, f: Pixel -> Pixel): (q: Picture)
    requires ValidPicture(p)
    ensures ValidPicture(q) && q.h == p.h && q.w == p.w
    ensures forall r, c | Inside(p, r, c) :: At(q, r, c) == f(At(p, r, c))
  {
    FromPixels(p.h, p.w, (r, c) => f(At(p, r, c)))
  }

  function Negated(p: Picture): (q: Picture)
    requires ValidPicture(p)
    ensures ValidPicture(q) && q.h == p.h && q.w == p.w
    ensures Unit(p) ==> Unit(q)
  {
    var q := MapPicture(p, NegativePixel);
    assert forall r, c, ch | Inside(p, r, c) :: Ch(At(q, r, c), ch) == 1.0 - Ch(At(p, r, c), ch);
    q
  }

  function Grey(p: Picture): (q: Picture)
    requires ValidPicture(p)
    ensures ValidPicture(q) && q.h == p.h && q.w == p.w && Unit(q)
  {
    MapPicture(p, GreyPixel)
  }

  lemma NegationTwice(p: Picture)
    requires ValidPicture(p)
    ensures Negated(Negated(p)) == p
  {
    PicturesEqual(Negated(Negated(p)), p);
  }

  /** Each tap on the picture and the same tap on its negative add up to the coefficient. */
  lemma NegativeTap(k: Kernel, p: Picture, row: int, col: int, c: Channel, dr: int, dc: int)
    requires ValidPicture(p) && Inside(p, row, col)
    ensures CoeffAt(k)(dr, dc) == Tap(k, p, row, col, c)(dr, dc) + Tap(k, Negated(p), row, col, c)(dr, dc)
  {
    var s := Source(row, col, dr, dc, p.h, p.w);
    assert Inside(p, s.0, s.1);
    assert Ch(SourcePixel(Negated(p), row, col, dr, dc), c) == 1.0 - Ch(SourcePixel(p, row, col, dr, dc), c);
  }

  lemma WeightedNegative(k: Kernel, p: Picture, r: int, c: int, ch: Channel)
    requires ValidPicture(p) && Inside(p, r, c)
    ensures Weighted(k, p, r, c, ch) + Weighted(k, Negated(p), r, c, ch) == KernelSum(k)
  {
    hide Sum, Source;
    var n := Negated(p);
    forall dr, dc ensures CoeffAt(k)(dr, dc) == Tap(k, p, r, c, ch)(dr, dc) + Tap(k, n, r, c, ch)(dr, dc) {
      NegativeTap(k, p, r, c, ch, dr, dc);
    }
    Sum2Add(Tap(k, p, r, c, ch), Tap(k, n, r, c, ch), CoeffAt(k),
            -MidRow(k), MidRow(k) + 1, -MidCol(k), MidCol(k) + 1);
  }

  lemma ClampFlip(x: real, y: real)
    requires x + y == 1.0
    ensures Clamp(x) + Clamp(y) == 1.0
  {
  }

  lemma ConvolvedNegative(k: Kernel, p: Picture, r: int, c: int, ch: Channel)
    requires ValidPicture(p) && KernelSum(k) == 1.0 && Inside(p, r, c)
    ensures Ch(At(Convolve(k, Negated(p)), r, c), ch) == 1.0 - Ch(At(Convolve(k, p), r, c), ch)
  {
    hide Sum, Weighted, KernelSum, Negated, Clamp, Convolve;
    WeightedNegative(k, p, r, c, ch);
    ClampFlip(Weighted(k, p, r, c, ch), Weighted(k, Negated(p), r, c, ch));
  }

  lemma NegativeChannels(p: Picture, r: int, c: int, ch: Channel)
    requires ValidPicture(p) && Inside(p, r, c)
    ensures Ch(At(Negated(p), r, c), ch) == 1.0 - Ch(At(p, r, c), ch)
  {
  }

  /** A kernel whose coefficients add up to one commutes with the negative, clamps and borders included. */
  lemma NegativeCommutes(k: Kernel, p: Picture)
    requires ValidPicture(p) && KernelSum(k) == 1.0
    ensures Convolve(k, Negated(p)) == Negated(Convolve(k, p))
  {
    hide Weighted, KernelSum, Negated, Clamp, Convolve;
    var (left, right) := (Convolve(k, Negated(p)), Negated(Convolve(k, p)));
    forall r, c | Inside(p, r, c) ensures At(left, r, c) == At(right, r, c) {
      forall ch ensures Ch(At(left, r, c), ch) == Ch(At(right, r, c), ch) {
        ConvolvedNegative(k, p, r, c, ch);
        NegativeChannels(Convolve(k, p), r, c, ch);
      }
      PixelsEqual(At(left, r, c), At(right, r, c));
    }
    PicturesEqual(left, right);
  }

  lemma GreyOfUnit(p: Pixel)
    requires UnitPixel(p)
    ensures 0.0 <= GreyOf(p) <= 1.0
  {
    assert 0.0 <= Ch(p, Red) <= 1.0 && 0.0 <= Ch(p, Green) <= 1.0 && 0.0 <= Ch(p, Blue) <= 1.0;
  }

  lemma GreyTap(k: Kernel, p: Picture, row: int, col: int, c: Channel, dr: int, dc: int)
    requires ValidPicture(p) && Unit(p) && Inside(p, row, col)
    ensures Tap(k, Grey(p), row, col, c)(dr, dc)
            == 0.299 * Tap(k, p, row, col, Red)(dr, dc) + 0.587 * Tap(k, p, row, col, Green)(dr, dc)
               + 0.114 * Tap(k, p, row, col, Blue)(dr, dc)
  {
    var s := Source(row, col, dr, dc, p.h, p.w);
    assert Inside(p, s.0, s.1);
    GreyOfUnit(At(p, s.0, s.1));
    assert Ch(SourcePixel(Grey(p), row, col, dr, dc), c) == GreyOf(SourcePixel(p, row, col, dr, dc));
  }

  /** The weighted sum of grey values is the grey value of the weighted sums. */
  lemma WeightedGrey(k: Kernel, p: Picture, r: int, c: int, ch: Channel)
    requires ValidPicture(p) && Unit(p) && Inside(p, r, c)
    ensures Weighted(k, Grey(p), r, c, ch) == GreyOf(WeightedPixel(k, p, r, c))
  {
    hide Sum;
    var grey := Grey(p);
    forall i, j
      ensures Tap(k, grey, r, c, ch)(i, j) == 0.299 * Tap(k, p, r, c, Red)(i, j)
              + 0.587 * Tap(k, p, r, c, Green)(i, j) + 0.114 * Tap(k, p, r, c, Blue)(i, j)
    {
      GreyTap(k, p, r, c, ch, i, j);
    }
    Sum2Mix(0.299, Tap(k, p, r, c, Red), 0.587, Tap(k, p, r, c, Green), 0.114, Tap(k, p, r, c, Blue),
            Tap(k, grey, r, c, ch), -MidRow(k), MidRow(k) + 1, -MidCol(k), MidCol(k) + 1);
    assert Weighted(k, p, r, c, Red)
           == Sum2(Tap(k, p, r, c, Red), -MidRow(k), MidRow(k) + 1, -MidCol(k), MidCol(k) + 1);
    assert Weighted(k, grey, r, c, ch)
           == Sum2(Tap(k, grey, r, c, ch), -MidRow(k), MidRow(k) + 1, -MidCol(k), MidCol(k) + 1);
  }

  /** An averaging kernel commutes with the conversion to grey. */
  lemma GreyCommutes(k: Kernel, p: Picture)
    requires ValidPicture(p) && Unit(p) && NonNegative(k) && KernelSum(k) == 1.0
    ensures Convolve(k, Grey(p)) == Grey(Convolve(k, p))
  {
    hide Sum, Weighted, KernelSum;
    var (left, right) := (Convolve(k, Grey(p)), Grey(Convolve(k, p)));
    forall r, c | Inside(p, r, c) ensures At(left, r, c) == At(right, r, c) {
      forall ch ensures 0.0 <= Weighted(k, p, r, c, ch) <= 1.0 {
        WeightedBounds(k, p, r, c, ch, 0.0, 1.0);
      }
      assert At(Convolve(k, p), r, c) == WeightedPixel(k, p, r, c) by {
        PixelsEqual(At(Convolve(k, p), r, c), WeightedPixel(k, p, r, c));
      }
      forall ch ensures Ch(At(left, r, c), ch) == Ch(At(right, r, c), ch) {
        WeightedGrey(k, p, r, c, ch);
      }
      PixelsEqual(At(left, r, c), At(right, r, c));
    }
    PicturesEqual(left, right);
  }
}
