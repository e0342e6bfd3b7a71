/**
 Which filters may trade places in a list (image_processor/src/filter.cpp and
 image_processor/src/handler.cpp), in exact arithmetic.
 */
module FilterLaws {
  import opened Wrappers
  import opened FilterTypes
  import opened Pictures
  import opened Blur
  import opened Filters
  import opened FilterMeaning

  // ---------- Filters of a single pixel and filters that move pixels ----------

  lemma CropMap(p: Picture, f: Pixel -> Pixel, w: int, h: int)
    requires ValidPicture(p)
    ensures Cropped(MapPicture(p, f), w, h) == MapPicture(Cropped(p, w, h), f)
  {
    hide Cropped, MapPicture, CropTo;
    PicturesEqual(Cropped(MapPicture(p, f), w, h), MapPicture(Cropped(p, w, h), f));
  }

  lemma SameSource(m: MathLib, p: Picture, q: Picture, d: Disc, row: int, col: int)
    requires p.h == q.h && p.w == q.w
    ensures TunnelSource(m, p, d, row, col) == TunnelSource(m, q, d, row, col)
  {
    hide Distance, Angle, Trunc, Times;
  }

  lemma TunnelMap(m: MathLib, p: Picture, f: Pixel -> Pixel, d: Disc)
    requires ValidPicture(p)
    ensures Tunnelled(m, MapPicture(p, f), d) == MapPicture(Tunnelled(m, p, d), f)
  {
    hide Tunnelled, MapPicture, TunnelSource;
    var (left, right) := (Tunnelled(m, MapPicture(p, f), d), MapPicture(Tunnelled(m, p, d), f));
    forall r, c | Inside(p, r, c) ensures At(left, r, c) == At(right, r, c) { SameSource(m, p, MapPicture(p, f), d, r, c); }
    PicturesEqual(left, right);
  }

  /** The grey of the negative is the negative of the grey, since the weights add up to one. */
  lemma GreyNegative(p: Picture)
    requires ValidPicture(p)
    ensures Grey(Negated(p)) == Negated(Grey(p))
  {
    var (left, right) := (Grey(Negated(p)), Negated(Grey(p)));
    forall r, c | Inside(p, r, c) ensures At(left, r, c) == At(right, r, c) { GreyNegativePixel(At(p, r, c)); }
    PicturesEqual(left, right);
  }

  lemma GreyNegativePixel(p: Pixel)
    ensures GreyPixel(NegativePixel(p)) == NegativePixel(GreyPixel(p))
  {
    assert GreyOf(NegativePixel(p)) == 1.0 - GreyOf(p);
  }

  // ---------- The negative ----------

  lemma RunOne(m: MathLib, f: Filter, rest: seq<Filter>, p: Picture)
    requires SaneMath(m) && ValidPicture(p) && InRange(f) && forall g | g in rest :: InRange(g)
    ensures RunFilters(m, [f] + rest, p)
            == match Apply(m, f, p)
               case Thrown => Thrown
               case Ok(q) => RunFilters(m, rest, q)
  {
    assert ([f] + rest)[1..] == rest;
  }

  /** Every filter but edge detection may trade places with the negative. */
  lemma NegativeSlides(m: MathLib, f: Filter, p: Picture)
    requires SaneMath(m) && InRange(f) && ValidPicture(p) && !f.EdgeDetection?
    ensures Apply(m, f, Negated(p)).Ok? <==> Apply(m, f, p).Ok?
    ensures Apply(m, f, p).Ok? ==> Apply(m, f, Negated(p)).value == Negated(Apply(m, f, p).value)
  {
    hide Cropped, Tunnelled, Blurred, Convolve, Grey, SaneMath;
    match f
    case Crop(w, h) => CropMap(p, NegativePixel, w, h);
    case Grayscale => GreyNegative(p);
    case Negative =>
    case Sharpening => SharpenNegative(p);
    case EdgeDetection(_) =>
    case GaussianBlur(sigma) => if sigma != 0.0 { BlurWeightsAverage(m, sigma); BlurNegative(BlurWeights(m, sigma), p); }
    case Tunnel(h, w, strength, radius) =>
      TunnelMap(m, p, NegativePixel, Disc(Centre(h, p.h), Centre(w, p.w), strength, radius));
  }

  /** A negative may move from the front of any list without edge detection to its end. */
  lemma {:induction false} NegativeMoves(m: MathLib, fs: seq<Filter>, p: Picture)
    requires SaneMath(m) && ValidPicture(p)
    requires forall f | f in fs :: InRange(f) && !f.EdgeDetection?
    ensures RunFilters(m, [Negative] + fs, p) == RunFilters(m, fs + [Negative], p)
    decreases |fs|
  {
    hide Apply, RunFilters, SaneMath, InRange;
    if fs == [] {
      assert [Negative] + fs == fs + [Negative];
    } else {
      InRangeNegative();
      NegativeStep(m, fs[0], fs[1..], p);
      assert fs == [fs[0]] + fs[1..] && fs + [Negative] == [fs[0]] + (fs[1..] + [Negative]);
      RunOne(m, fs[0], fs[1..] + [Negative], p);
      if Apply(m, fs[0], p).Ok? { NegativeMoves(m, fs[1..], Apply(m, fs[0], p).value); }
    }
  }

  lemma NegativeFirst(m: MathLib, fs: seq<Filter>, p: Picture)
    requires SaneMath(m) && ValidPicture(p) && forall f | f in fs :: InRange(f)
    ensures RunFilters(m, [Negative] + fs, p) == RunFilters(m, fs, Negated(p))
  {
    hide RunFilters;
    RunOne(m, Negative, fs, p);
  }

  lemma NegativeStep(m: MathLib, f: Filter, rest: seq<Filter>, p: Picture)
    requires SaneMath(m) && ValidPicture(p) && InRange(f) && !f.EdgeDetection?
    requires forall g | g in rest :: InRange(g)
    ensures RunFilters(m, [Negative] + ([f] + rest), p)
            == match Apply(m, f, p)
               case Thrown => Thrown
               case Ok(q) => RunFilters(m, [Negative] + rest, q)
  {
    hide Apply, RunFilters, SaneMath, InRange;
    InRangeNegative();
    NegativeFirst(m, [f] + rest, p);
    RunOne(m, f, rest, Negated(p));
    NegativeSlides(m, f, p);
    if Apply(m, f, p).Ok? { NegativeFirst(m, rest, Apply(m, f, p).value); }
  }

  lemma InRangeNegative()
    ensures InRange(Negative) && InRange(Grayscale)
  {
  }

  /** Edge detection may not trade places with the negative: on a picture of one colour the two orders differ
      at every pixel. */
  lemma EdgesDoNotSlide(m: MathLib, p: Picture, colour: Pixel, threshold: real, row: int, col: int)
    requires SaneMath(m) && ValidPicture(p) && threshold >= 0.0 && Inside(p, row, col)
    requires forall i, j | Inside(p, i, j) :: At(p, i, j) == colour
    ensures At(Edges(Negated(p), threshold), row, col) == BLACK
    ensures At(Negated(Edges(p, threshold)), row, col) == WHITE
  {
    hide Edges;
    NoEdgesOnConstant(p, colour, threshold, row, col);
    NoEdgesOnConstant(Negated(p), NegativePixel(colour), threshold, row, col);
  }

  // ---------- Grey ----------

  /** The filters that may trade places with the conversion to grey: all but sharpening. */
  predicate GreySafe(f: Filter) {
    !f.Sharpening?
  }

  lemma GreyTwice(p: Picture)
    requires ValidPicture(p)
    ensures Grey(Grey(p)) == Grey(p)
  {
    PicturesEqual(Grey(Grey(p)), Grey(p));
  }

  lemma BlackOrWhite(p: Picture, t: real, row: int, col: int)
    requires ValidPicture(p) && Inside(p, row, col)
    ensures At(Edges(p, t), row, col) == BLACK || At(Edges(p, t), row, col) == WHITE
  {
    hide Convolve, Grey, FromPixels;
  }

  lemma BlackWhiteGrey()
    ensures GreyPixel(BLACK) == BLACK && GreyPixel(WHITE) == WHITE
  {
  }

  lemma EdgesOfGrey(p: Picture, t: real)
    requires ValidPicture(p)
    ensures Edges(Grey(p), t) == Edges(p, t)
  {
    hide Convolve, Grey, MapPicture, ThresholdPixel, Unit, ValidPicture;
    GreyTwice(p);
  }

  /** Edge detection starts with the conversion to grey and ends with black and white. */
  lemma EdgesGrey(p: Picture, t: real)
    requires ValidPicture(p)
    ensures Edges(Grey(p), t) == Edges(p, t) == Grey(Edges(p, t))
  {
    hide Edges, GreyPixel;
    EdgesOfGrey(p, t);
    BlackWhiteGrey();
    var q := Edges(p, t);
    forall r, c | Inside(p, r, c) ensures At(Grey(q), r, c) == At(q, r, c) { BlackOrWhite(p, t, r, c); }
    PicturesEqual(Grey(q), q);
  }

  lemma CropGrey(p: Picture, w: int, h: int)
    requires ValidPicture(p)
    ensures Cropped(Grey(p), w, h) == Grey(Cropped(p, w, h))
  {
    CropMap(p, GreyPixel, w, h);
  }

  lemma TunnelGrey(m: MathLib, p: Picture, d: Disc)
    requires ValidPicture(p)
    ensures Tunnelled(m, Grey(p), d) == Grey(Tunnelled(m, p, d))
  {
    TunnelMap(m, p, GreyPixel, d);
  }

  /** Every filter but sharpening may trade places with the conversion to grey. */
  lemma GreySlides(m: MathLib, f: Filter, p: Picture)
    requires SaneMath(m) && InRange(f) && ValidPicture(p) && Unit(p) && GreySafe(f)
    ensures Apply(m, f, Grey(p)).Ok? <==> Apply(m, f, p).Ok?
    ensures Apply(m, f, p).Ok? ==> Apply(m, f, Grey(p)).value == Grey(Apply(m, f, p).value)
  {
    hide Cropped, Tunnelled, Blurred, Convolve, Negated, Edges, Grey, SaneMath;
    match f
    case Crop(w, h) => CropGrey(p, w, h);
    case Grayscale =>
    case Negative => GreyNegative(p);
    case Sharpening =>
    case EdgeDetection(t) => EdgesGrey(p, t);
    case GaussianBlur(sigma) => if sigma != 0.0 { BlurWeightsAverage(m, sigma); BlurGrey(BlurWeights(m, sigma), p); }
    case Tunnel(h, w, strength, radius) =>
      TunnelGrey(m, p, Disc(Centre(h, p.h), Centre(w, p.w), strength, radius));
  }

  /** Sharpening: five times the pixel, minus its four neighbours under the border rule. */
  lemma SharpenValue(p: Picture, row: int, col: int, c: Channel)
    requires ValidPicture(p)
    ensures Weighted(SHARPEN, p, row, col, c)
            == 5.0 * Ch(SourcePixel(p, row, col, 0, 0), c)
               - Ch(SourcePixel(p, row, col, -1, 0), c) - Ch(SourcePixel(p, row, col, 1, 0), c)
               - Ch(SourcePixel(p, row, col, 0, -1), c) - Ch(SourcePixel(p, row, col, 0, 1), c)
  {
    CrossConstants();
    hide SHARPEN, SourcePixel, Ch, Weighted;
    CrossValue(SHARPEN, 5.0, p, row, col, c);
  }

  const RED_GREEN := Picture(1, 2, [[Pixel(1.0, 0.0, 0.0), Pixel(0.0, 1.0, 0.0)]])

  lemma SharpenLeft(p: Picture, c: Channel)
    requires ValidPicture(p) && p.h == 1 && p.w == 2
    ensures Ch(At(Convolve(SHARPEN, p), 0, 0), c) == Clamp(3.0 * Ch(At(p, 0, 0), c) - 2.0 * Ch(At(p, 0, 1), c))
  {
    hide Weighted, Clamp, Convolve;
    SharpenValue(p, 0, 0, c);
    assert Inside(p, 0, 0);
  }

  /** Sharpening may not trade places with the conversion to grey: next to full green, full red sharpened and
      then made grey is 0.299, and made grey and then sharpened it is black. */
  lemma SharpeningDoesNotSlide()
    ensures ValidPicture(RED_GREEN) && Unit(RED_GREEN)
    ensures At(Grey(Convolve(SHARPEN, RED_GREEN)), 0, 0) == Pixel(0.299, 0.299, 0.299)
    ensures At(Convolve(SHARPEN, Grey(RED_GREEN)), 0, 0) == BLACK
  {
    hide Convolve;
    var (p, g) := (RED_GREEN, Grey(RED_GREEN));
    assert At(p, 0, 0) == Pixel(1.0, 0.0, 0.0) && At(p, 0, 1) == Pixel(0.0, 1.0, 0.0);
    assert At(g, 0, 0) == Pixel(0.299, 0.299, 0.299) && At(g, 0, 1) == Pixel(0.587, 0.587, 0.587);
    forall c ensures Ch(At(Convolve(SHARPEN, p), 0, 0), c) == Ch(Pixel(1.0, 0.0, 0.0), c) { SharpenLeft(p, c); }
    forall c ensures Ch(At(Convolve(SHARPEN, g), 0, 0), c) == Ch(BLACK, c) { SharpenLeft(g, c); }
    PixelsEqual(At(Convolve(SHARPEN, p), 0, 0), Pixel(1.0, 0.0, 0.0));
    PixelsEqual(At(Convolve(SHARPEN, g), 0, 0), BLACK);
    assert Inside(Convolve(SHARPEN, p), 0, 0);
  }

  lemma GreyFirst(m: MathLib, fs: seq<Filter>, p: Picture)
    requires SaneMath(m) && ValidPicture(p) && forall f | f in fs :: InRange(f)
    ensures RunFilters(m, [Grayscale] + fs, p) == RunFilters(m, fs, Grey(p))
  {
    hide RunFilters;
    RunOne(m, Grayscale, fs, p);
  }

  lemma GreyStep(m: MathLib, f: Filter, rest: seq<Filter>, p: Picture)
    requires SaneMath(m) && ValidPicture(p) && Unit(p) && InRange(f) && GreySafe(f)
    requires forall g | g in rest :: InRange(g)
    ensures RunFilters(m, [Grayscale] + ([f] + rest), p)
            == match Apply(m, f, p)
               case Thrown => Thrown
               case Ok(q) => RunFilters(m, [Grayscale] + rest, q)
  {
    hide Apply, RunFilters, SaneMath, InRange, GreySafe;
    InRangeNegative();
    GreyFirst(m, [f] + rest, p);
    RunOne(m, f, rest, Grey(p));
    GreySlides(m, f, p);
    if Apply(m, f, p).Ok? { GreyFirst(m, rest, Apply(m, f, p).value); }
  }

  /** A conversion to grey may move from the front of any list without sharpening to its end. */
  lemma {:induction false} GreyMoves(m: MathLib, fs: seq<Filter>, p: Picture)
    requires SaneMath(m) && ValidPicture(p) && Unit(p)
    requires forall f | f in fs :: InRange(f) && GreySafe(f)
    ensures RunFilters(m, [Grayscale] + fs, p) == RunFilters(m, fs + [Grayscale], p)
    decreases |fs|
  {
    hide Apply, RunFilters, SaneMath, InRange, GreySafe;
    if fs == [] {
      assert [Grayscale] + fs == fs + [Grayscale];
    } else {
      InRangeNegative();
      GreyStep(m, fs[0], fs[1..], p);
      assert fs == [fs[0]] + fs[1..] && fs + [Grayscale] == [fs[0]] + (fs[1..] + [Grayscale]);
      RunOne(m, fs[0], fs[1..] + [Grayscale], p);
      if Apply(m, fs[0], p).Ok? { GreyMoves(m, fs[1..], Apply(m, fs[0], p).value); }
    }
  }
}
