/**
 The classes of the image processor (image_processor/include/image.h and the filters'
 `Apply` methods): pixels and buffer are updated in place and swapped.  Every method is
 proved against the functions on pictures.
 */
module Images {
  import opened Wrappers
  import opened FilterTypes
  import opened Sums
  import opened Pictures
  import opened Blur
  import opened Filters

  /** The contents of a two-dimensional array, row by row. */
  ghost function RowsOf<T>(a: array2<T>): (rows: seq<seq<T>>)
    reads a
    ensures |rows| == a.Length0 && forall i | 0 <= i < a.Length0 :: |rows[i]| == a.Length1
    ensures forall i, j | 0 <= i < a.Length0 && 0 <= j < a.Length1 :: rows[i][j] == a[i, j]
  {
    seq(a.Length0, i requires 0 <= i < a.Length0 reads a =>
      seq(a.Length1, j requires 0 <= j < a.Length1 reads a => a[i, j]))
  }

  lemma RowsEqual<T>(x: seq<seq<T>>, y: seq<seq<T>>)
    requires |x| == |y| && forall i | 0 <= i < |x| :: |x[i]| == |y[i]|
    requires forall i, j | 0 <= i < |x| && 0 <= j < |x[i]| :: x[i][j] == y[i][j]
    ensures x == y
  {
    forall i | 0 <= i < |x| ensures x[i] == y[i] {}
  }

  class Matrix {
    var matrix: array2<real>

    ghost function View(): Kernel
      reads this, matrix
    {
      RowsOf(matrix)
    }

    constructor (k: Kernel)
      requires k != [] && forall i | 0 <= i < |k| :: |k[i]| == |k[0]|
      ensures View() == k && fresh(matrix)
    {
      matrix := new real[|k|, |k[0]|]((i, j) requires 0 <= i < |k| && 0 <= j < |k[0]| => k[i][j]);
      new;
      RowsEqual(RowsOf(matrix), k);
    }

    constructor FromArray(a: array2<real>)
      ensures matrix == a
    {
      matrix := a;
    }

    method Transpose()
      requires matrix.Length0 > 0
      modifies this
      ensures View() == Transposed(old(View())) && fresh(matrix)
    {
      var rows, cols := matrix.Length0, matrix.Length1;
      var nMatrix := new real[cols, rows];
      for i := 0 to rows
        invariant matrix == old(matrix)
        invariant forall a, b | 0 <= a < i && 0 <= b < cols :: nMatrix[b, a] == matrix[a, b]
      {
        for j := 0 to cols
          invariant matrix == old(matrix)
          invariant forall a, b | 0 <= a < i && 0 <= b < cols :: nMatrix[b, a] == matrix[a, b]
          invariant forall b | 0 <= b < j :: nMatrix[b, i] == matrix[i, b]
        {
          nMatrix[j, i] := matrix[i, j];
        }
      }
      ghost var before := View();
      matrix := nMatrix;
      RowsEqual(View(), Transposed(before));
    }
  }

  /** Transposing twice gives a rectangular kernel back. */
  lemma TransposeTwice(k: Kernel)
    requires k != [] && k[0] != [] && forall i | 0 <= i < |k| :: |k[i]| == |k[0]|
    ensures Transposed(Transposed(k)) == k
  {
    var t := Transposed(k);
    forall i, j | 0 <= i < |k| && 0 <= j < |k[0]| ensures Transposed(t)[i][j] == k[i][j] {
      assert t[j][i] == k[i][j];
    }
    RowsEqual(Transposed(t), k);
  }

  // ---------- Sums in the order of the loops ----------

  /** What has been added up before the tap (dr, dc): the full rows and the part of the current one. */
  function SoFar(t: (int, int) -> real, mr: int, mc: int, dr: int, dc: int): real {
    Sum(RowSum(t, -mc, mc + 1), -mr, dr) + Sum(j => t(dr, j), -mc, dc)
  }

  lemma SoFarStep(t: (int, int) -> real, mr: int, mc: int, dr: int, dc: int)
    requires -mc <= dc
    ensures SoFar(t, mr, mc, dr, dc + 1) == SoFar(t, mr, mc, dr, dc) + t(dr, dc)
  {
  }

  lemma SoFarRow(t: (int, int) -> real, mr: int, mc: int, dr: int)
    requires -mr <= dr
    ensures SoFar(t, mr, mc, dr, mc + 1) == SoFar(t, mr, mc, dr + 1, -mc)
  {
    assert RowSum(t, -mc, mc + 1)(dr) == Sum(j => t(dr, j), -mc, mc + 1);
  }

  function SoFarPixel(k: Kernel, p: Picture, row: int, col: int, dr: int, dc: int): Pixel
    requires ValidPicture(p)
  {
    Pixel(SoFar(Tap(k, p, row, col, Red), MidRow(k), MidCol(k), dr, dc),
          SoFar(Tap(k, p, row, col, Green), MidRow(k), MidCol(k), dr, dc),
          SoFar(Tap(k, p, row, col, Blue), MidRow(k), MidCol(k), dr, dc))
  }

  function AddScaled(b: Pixel, x: real, s: Pixel): Pixel {
    Pixel(b.r + x * s.r, b.g + x * s.g, b.b + x * s.b)
  }

  lemma SoFarPixelStart(k: Kernel, p: Picture, row: int, col: int)
    requires ValidPicture(p)
    ensures SoFarPixel(k, p, row, col, -MidRow(k), -MidCol(k)) == BLACK
  {
  }

  lemma SoFarPixelStep(k: Kernel, p: Picture, row: int, col: int, dr: int, dc: int)
    requires ValidPicture(p) && -MidCol(k) <= dc
    ensures var (x, s) := (CoeffAt(k)(dr, dc), SourcePixel(p, row, col, dr, dc));
            SoFarPixel(k, p, row, col, dr, dc + 1) == AddScaled(SoFarPixel(k, p, row, col, dr, dc), x, s)
  {
    hide SoFar, Source;
    SoFarStep(Tap(k, p, row, col, Red), MidRow(k), MidCol(k), dr, dc);
    SoFarStep(Tap(k, p, row, col, Green), MidRow(k), MidCol(k), dr, dc);
    SoFarStep(Tap(k, p, row, col, Blue), MidRow(k), MidCol(k), dr, dc);
  }

  lemma SoFarPixelRow(k: Kernel, p: Picture, row: int, col: int, dr: int)
    requires ValidPicture(p) && -MidRow(k) <= dr
    ensures SoFarPixel(k, p, row, col, dr, MidCol(k) + 1) == SoFarPixel(k, p, row, col, dr + 1, -MidCol(k))
  {
    hide SoFar, Source;
    SoFarRow(Tap(k, p, row, col, Red), MidRow(k), MidCol(k), dr);
    SoFarRow(Tap(k, p, row, col, Green), MidRow(k), MidCol(k), dr);
    SoFarRow(Tap(k, p, row, col, Blue), MidRow(k), MidCol(k), dr);
  }

  lemma SoFarPixelEnd(k: Kernel, p: Picture, row: int, col: int)
    requires ValidPicture(p)
    ensures SoFarPixel(k, p, row, col, MidRow(k) + 1, -MidCol(k)) == WeightedPixel(k, p, row, col)
  {
  }

  lemma ConvolvedAt(k: Kernel, p: Picture, row: int, col: int)
    requires ValidPicture(p) && Inside(p, row, col)
    ensures At(Convolve(k, p), row, col) == ClampPixel(WeightedPixel(k, p, row, col))
  {
  }

  class Image {
    var pixels: array2<Pixel>
    var buffer: array2<Pixel>
    var width: nat
    var height: nat
    /** carried in the header */
    var imageSize: int

    /** Both arrays have exactly the size of the picture. */
    predicate Valid()
      reads this
    {
      && pixels != buffer
      && pixels.Length0 == buffer.Length0 == height
      && pixels.Length1 == buffer.Length1 == width
    }

    ghost function View(): (p: Picture)
      reads this, pixels
      requires Valid()
      ensures ValidPicture(p)
    {
      Picture(height, width, RowsOf(pixels))
    }

    constructor (p: Picture, imageSize: int)
      requires ValidPicture(p)
      ensures Valid() && View() == p && this.imageSize == imageSize && fresh(pixels) && fresh(buffer)
    {
      pixels := new Pixel[p.h, p.w]((i, j) requires 0 <= i < p.h && 0 <= j < p.w => p.px[i][j]);
      buffer := new Pixel[p.h, p.w]((i, j) => BLACK);
      height, width, this.imageSize := p.h, p.w, imageSize;
      new;
      RowsEqual(RowsOf(pixels), p.px);
    }

    /** The buffer outside one cell is as it was. */
    twostate predicate OnlyCell(row: int, col: int)
      reads this, buffer
    {
      && buffer == old(buffer)
      && forall r, c | 0 <= r < buffer.Length0 && 0 <= c < buffer.Length1 && (r, c) != (row, col) ::
           buffer[r, c] == old(buffer[r, c])
    }

    /** The body of the innermost loop: add one tap to the sum in the buffer. */
    method AddTap(matrix: Matrix, row: nat, col: nat, dRow: int, dCol: int)
      requires Valid() && row < height && col < width && OddKernel(matrix.View())
      requires var k := matrix.View(); -MidRow(k) <= dRow <= MidRow(k) && -MidCol(k) <= dCol <= MidCol(k)
      requires buffer[row, col] == SoFarPixel(matrix.View(), View(), row, col, dRow, dCol)
      modifies buffer
      ensures buffer[row, col] == SoFarPixel(matrix.View(), View(), row, col, dRow, dCol + 1)
      ensures OnlyCell(row, col) && View() == old(View())
    {
      hide SoFarPixel, Source, AddScaled;
      ghost var (k, p) := (matrix.View(), View());
      var midRow, midCol := matrix.matrix.Length0 / 2, matrix.matrix.Length1 / 2;
      SoFarPixelStep(k, p, row, col, dRow, dCol);
      var cRow, cCol := TapSource(row, col, dRow, dCol);
      var coeff := matrix.matrix[dRow + midRow, dCol + midCol];
      var px := pixels[cRow, cCol];
      var b := buffer[row, col];
      assert coeff == CoeffAt(k)(dRow, dCol) && px == SourcePixel(p, row, col, dRow, dCol);
      buffer[row, col] := AddScaled(b, coeff, px);
      assert View() == p;
    }

    /** The two inner loops: add up all taps of one pixel in the buffer. */
    method SumTaps(matrix: Matrix, row: nat, col: nat)
      requires Valid() && row < height && col < width && OddKernel(matrix.View())
      modifies buffer
      ensures buffer[row, col] == WeightedPixel(matrix.View(), View(), row, col)
      ensures OnlyCell(row, col) && View() == old(View())
    {
      hide SoFarPixel, WeightedPixel;
      ghost var (k, p) := (matrix.View(), View());
      var midRow, midCol := matrix.matrix.Length0 / 2, matrix.matrix.Length1 / 2;
      assert MidRow(k) == midRow && MidCol(k) == midCol;
      buffer[row, col] := Pixel(0.0, 0.0, 0.0);
      SoFarPixelStart(k, p, row, col);
      for dRow := -midRow to midRow + 1
        invariant OnlyCell(row, col) && View() == p
        invariant buffer[row, col] == SoFarPixel(k, p, row, col, dRow, -midCol)
      {
        for dCol := -midCol to midCol + 1
          invariant OnlyCell(row, col) && View() == p
          invariant buffer[row, col] == SoFarPixel(k, p, row, col, dRow, dCol)
        {
          AddTap(matrix, row, col, dRow, dCol);
        }
        SoFarPixelRow(k, p, row, col, dRow);
      }
      SoFarPixelEnd(k, p, row, col);
    }

    /** The pixel that a tap reads: always inside the picture. */
    method TapSource(row: nat, col: nat, dRow: int, dCol: int) returns (cRow: int, cCol: int)
      requires row < height && col < width
      ensures (cRow, cCol) == Source(row, col, dRow, dCol, height, width)
      ensures 0 <= cRow < height && 0 <= cCol < width
    {
      cRow, cCol := row + dRow, col + dCol;
      if cRow < 0 { cRow := -cRow; }
      if height <= cRow { cRow := height - 1 - cRow; }
      if cCol < 0 { cCol := -cCol; }
      if width <= cCol { cCol := width - 1 - cCol; }
      if !(0 <= cRow < height && 0 <= cCol < width) {
        cRow, cCol := row, col;
      }
    }

    /** Convolution into the buffer and swap.  What the buffer held before does not matter. */
    method Multiply(matrix: Matrix)
      requires Valid() && OddKernel(matrix.View())
      requires height + matrix.matrix.Length0 < 0x8000_0000 && width + matrix.matrix.Length1 < 0x8000_0000
      modifies this`pixels, this`buffer, buffer
      ensures Valid() && pixels == old(buffer) && buffer == old(pixels)
      ensures View() == Convolve(matrix.View(), old(View()))
    {
      hide WeightedPixel, Clamp, Convolve, OddKernel;
      ghost var (k, p) := (matrix.View(), View());
      for row := 0 to height
        invariant Valid() && pixels == old(pixels) && buffer == old(buffer) && View() == p
        invariant forall r, c | 0 <= r < row && 0 <= c < width :: buffer[r, c] == ClampPixel(WeightedPixel(k, p, r, c))
      {
        for col := 0 to width
          invariant Valid() && pixels == old(pixels) && buffer == old(buffer) && View() == p
          invariant forall r, c | 0 <= r < row && 0 <= c < width :: buffer[r, c] == ClampPixel(WeightedPixel(k, p, r, c))
          invariant forall c | 0 <= c < col :: buffer[row, c] == ClampPixel(WeightedPixel(k, p, row, c))
        {
          SumTaps(matrix, row, col);
          var b := buffer[row, col];
          buffer[row, col] := Pixel(Clamp(b.r), Clamp(b.g), Clamp(b.b));
        }
      }
      pixels, buffer := buffer, pixels;
      forall r, c | Inside(p, r, c) ensures At(Convolve(k, p), r, c) == pixels[r, c] { ConvolvedAt(k, p, r, c); }
      PicturesEqual(View(), Convolve(k, p));
    }

    /** Every object of the image. */
    ghost function Repr(): set<object>
      reads this
    {
      {this, pixels, buffer}
    }

    /** A loop over all pixels that replaces each by a function of itself. */
    method MapPixels(f: Pixel -> Pixel)
      requires Valid()
      modifies pixels
      ensures View() == MapPicture(old(View()), f)
    {
      ghost var p := View();
      for row := 0 to height
        invariant forall r, c | 0 <= r < height && 0 <= c < width ::
                    pixels[r, c] == if r < row then f(p.px[r][c]) else p.px[r][c]
      {
        for col := 0 to width
          invariant forall r, c | 0 <= r < height && 0 <= c < width ::
                      pixels[r, c] == if r < row || (r == row && c < col) then f(p.px[r][c]) else p.px[r][c]
        {
          pixels[row, col] := f(pixels[row, col]);
        }
      }
      RowsEqual(RowsOf(pixels), MapPicture(p, f).px);
    }

    /** `resize` of one of the arrays: the rows and columns that remain keep their contents. */
    method Resized(a: array2<Pixel>, h: nat, w: nat) returns (b: array2<Pixel>)
      requires h <= a.Length0 && w <= a.Length1
      ensures fresh(b) && b.Length0 == h && b.Length1 == w
      ensures forall r, c | 0 <= r < h && 0 <= c < w :: b[r, c] == a[r, c]
    {
      b := new Pixel[h, w]((i, j) requires 0 <= i < h && 0 <= j < w reads a => a[i, j]);
    }

    method Crop(cropWidth: int, cropHeight: int)
      requires Valid() && height < 0x8000_0000 && width < 0x8000_0000
      requires -0x8000 <= cropWidth < 0x8000 && -0x8000 <= cropHeight < 0x8000
      modifies this
      ensures Valid() && fresh(Repr() - old(Repr()))
      ensures View() == Cropped(old(View()), cropWidth, cropHeight)
      ensures imageSize == CropImageSize(cropWidth, cropHeight)
    {
      hide Cropped, CropImageSize;
      ghost var p := View();
      if Uint32(cropHeight) < height {
        pixels := Resized(pixels, Uint32(cropHeight), width);
        buffer := Resized(buffer, Uint32(cropHeight), width);
        height := Uint32(cropHeight);
      }
      if Uint32(cropWidth) < width {
        pixels := Resized(pixels, height, Uint32(cropWidth));
        buffer := Resized(buffer, height, Uint32(cropWidth));
        width := Uint32(cropWidth);
      }
      imageSize := CropImageSize(cropWidth, cropHeight);
      PicturesEqual(View(), Cropped(p, cropWidth, cropHeight));
    }

    method EdgeDetection(threshold: real)
      requires Valid() && height + 3 < 0x8000_0000 && width + 3 < 0x8000_0000
      modifies this`pixels, this`buffer, pixels, buffer
      ensures Valid() && {pixels, buffer} == old({pixels, buffer})
      ensures View() == Edges(old(View()), threshold)
    {
      hide Convolve, KernelSum, MapPicture;
      KernelConstants();
      MapPixels(GreyPixel);
      var matrix := new Matrix(LAPLACE);
      Multiply(matrix);
      MapPixels(ThresholdPixel(threshold));
    }

    method Sharpening()
      requires Valid() && height + 3 < 0x8000_0000 && width + 3 < 0x8000_0000
      modifies this`pixels, this`buffer, pixels, buffer
      ensures Valid() && {pixels, buffer} == old({pixels, buffer})
      ensures View() == Convolve(SHARPEN, old(View()))
    {
      hide Convolve, KernelSum;
      KernelConstants();
      var matrix := new Matrix(SHARPEN);
      Multiply(matrix);
    }

    /** `CalcMatrix` and its two passes. */
    method GaussianBlur(m: MathLib, sigma: real) returns (ok: bool)
      requires SaneMath(m) && Valid() && InRange(Filter.GaussianBlur(sigma))
      requires height + MAX_KERNEL < 0x8000_0000 && width + MAX_KERNEL < 0x8000_0000
      modifies this`pixels, this`buffer, pixels, buffer
      ensures Valid() && {pixels, buffer} == old({pixels, buffer})
      ensures ok <==> sigma != 0.0
      ensures ok ==> View() == Blurred(BlurWeights(m, sigma), old(View()))
    {
      hide Convolve, Gaussian, Transposed, SquaredDistance;
      var size := BlurSize(sigma);
      BlurFits(sigma, 0);
      if sigma == 0.0 { return false; }
      var matrix := CalcMatrix(m.bell, sigma, size);
      ghost var g := BlurWeights(m, sigma);
      GaussianIsAveraging(m.bell, sigma, size);
      PassKernelsOdd(g);
      Multiply(matrix);
      matrix.Transpose();
      Multiply(matrix);
      ok := true;
    }

    /** The pixel that the warp shows at one position. */
    method TunnelPixel(m: MathLib, d: Disc, row: nat, col: nat) returns (px: Pixel)
      requires Valid() && row < height && col < width
      ensures var s := TunnelSource(m, View(), d, row, col);
              0 <= s.0 < height && 0 <= s.1 < width && px == pixels[s.0, s.1]
    {
      hide Distance, Angle, Trunc, Times;
      px := pixels[row, col];
      var distance := Distance(m, d, row, col);
      if distance < d.radius && distance > 0.0 {
        var angle := Angle(m, d, distance, row, col);
        var srcRow := d.row + Trunc(Times(distance, m.sin(angle)));
        var srcCol := d.col + Trunc(Times(distance, m.cos(angle)));
        if 0 <= srcCol < width && 0 <= srcRow < height {
          px := pixels[srcRow, srcCol];
        }
      }
    }

    /** The warp into a local array. */
    method Warped(m: MathLib, d: Disc) returns (local: array2<Pixel>)
      requires Valid()
      ensures fresh(local) && local.Length0 == height && local.Length1 == width
      ensures RowsOf(local) == Tunnelled(m, View(), d).px
    {
      hide TunnelSource, Tunnelled;
      ghost var (p, q) := (View(), Tunnelled(m, View(), d));
      local := new Pixel[height, width]((i, j) => BLACK);
      for row := 0 to height
        invariant forall r, c | 0 <= r < row && 0 <= c < width :: local[r, c] == q.px[r][c]
      {
        for col := 0 to width
          invariant forall r, c | 0 <= r < row && 0 <= c < width :: local[r, c] == q.px[r][c]
          invariant forall c | 0 <= c < col :: local[row, c] == q.px[row][c]
        {
          local[row, col] := TunnelPixel(m, d, row, col);
          assert Inside(p, row, col) && At(q, row, col) == q.px[row][col];
        }
      }
      RowsEqual(RowsOf(local), q.px);
    }

    /** The warped array becomes the pixels. */
    method Tunnel(m: MathLib, centerH: int, centerW: int, strength: real, radius: real) returns (ok: bool)
      requires Valid()
      modifies this`pixels
      ensures Valid() && buffer == old(buffer) && fresh(Repr() - old(Repr()))
      ensures var d := Disc(Centre(centerH, height), Centre(centerW, width), strength, radius);
              && (ok <==> 0 <= d.row < height && 0 <= d.col < width)
              && View() == if ok then Tunnelled(m, old(View()), d) else old(View())
    {
      hide Tunnelled;
      var row0, col0 := height / 2, width / 2;
      if centerH != 0 { row0 := centerH; }
      if centerW != 0 { col0 := centerW; }
      if row0 < 0 || height <= row0 { return false; }
      if col0 < 0 || width <= col0 { return false; }
      pixels := Warped(m, Disc(row0, col0, strength, radius));
      ok := true;
    }

    method ApplyFilter(m: MathLib, f: Filter) returns (ok: bool)
      requires SaneMath(m) && Valid() && InRange(f)
      requires height + MAX_KERNEL < 0x8000_0000 && width + MAX_KERNEL < 0x8000_0000
      modifies this, pixels, buffer
      ensures Valid() && fresh(Repr() - old(Repr()))
      ensures ok <==> Apply(m, f, old(View())).Ok?
      ensures ok ==> View() == Apply(m, f, old(View())).value
      ensures ok ==> imageSize == SizeAfter(f, old(imageSize))
    {
      ok := true;
      match f
      case Crop(w, h) => Crop(w, h);
      case Grayscale => MapPixels(GreyPixel);
      case Negative => MapPixels(NegativePixel);
      case Sharpening => Sharpening();
      case EdgeDetection(t) => EdgeDetection(t);
      case GaussianBlur(sigma) => ok := GaussianBlur(m, sigma);
      case Tunnel(h, w, strength, radius) => ok := Tunnel(m, h, w, strength, radius);
    }

    /** `ApplyFilters`: the filters one after another, until one throws. */
    method ApplyFilters(m: MathLib, filters: seq<Filter>) returns (ok: bool)
      requires SaneMath(m) && Valid() && forall f | f in filters :: InRange(f)
      requires height + MAX_KERNEL < 0x8000_0000 && width + MAX_KERNEL < 0x8000_0000
      modifies this, pixels, buffer
      ensures Valid() && fresh(Repr() - old(Repr()))
      ensures ok <==> RunFilters(m, filters, old(View())).Ok?
      ensures ok ==> View() == RunFilters(m, filters, old(View())).value
      ensures ok ==> imageSize == SizeAfterAll(filters, old(imageSize))
    {
      hide Apply, Uint32, CropImageSize;
      ghost var result := RunFilters(m, filters, View());
      ghost var size := SizeAfterAll(filters, imageSize);
      var i := 0;
      while i < |filters|
        invariant 0 <= i <= |filters|
        invariant Valid() && fresh(Repr() - old(Repr()))
        invariant height <= old(height) && width <= old(width)
        invariant RunFilters(m, filters[i..], View()) == result
        invariant SizeAfterAll(filters[i..], imageSize) == size
      {
        ghost var p := View();
        ok := ApplyFilter(m, filters[i]);
        assert filters[i..][1..] == filters[i + 1..];
        if !ok { return; }
        i := i + 1;
      }
      ok := true;
    }
  }

  const MAX_KERNEL := 92682

  function TruncDiv(a: int, b: nat): int
    requires b > 0
  {
    if a >= 0 then a / b else -(-a / b)
  }

  /** The header field after a crop, from the arguments of the crop. */
  function CropImageSize(w: int, h: int): int {
    Uint32(h * (TruncDiv(w * 3 + 3, 4) * 4))
  }

  /** For the sizes a crop can have: rows of whole groups of four bytes. */
  lemma CropImageSizeIs(w: nat, h: nat)
    requires w < 0x8000 && h < 0x8000
    ensures CropImageSize(w, h) == h * ((3 * w + 3) / 4 * 4)
  {
    var stride := TruncDiv(w * 3 + 3, 4) * 4;
    assert stride == (3 * w + 3) / 4 * 4;
    hide Uint32, TruncDiv;
    SmallProduct(h, stride);
  }

  lemma {:induction false} SmallProduct(a: nat, b: nat)
    requires a < 0x8000 && b < 0x2_0000
    ensures 0 <= a * b <= a * 0x2_0000
  {
    if a > 0 {
      SmallProduct(a - 1, b);
      assert a * b == (a - 1) * b + b;
    }
  }

  function SizeAfter(f: Filter, size: int): int {
    if f.Crop? then CropImageSize(f.width, f.height) else size
  }

  function SizeAfterAll(fs: seq<Filter>, size: int): (r: int)
    ensures 0 <= size < 0x1_0000_0000 ==> 0 <= r < 0x1_0000_0000
    decreases |fs|
  {
    if fs == [] then size else SizeAfterAll(fs[1..], SizeAfter(fs[0], size))
  }

  /** Fill a row with the bell, add it up, and divide by the sum. */
  method CalcMatrix(bell: Bell, sigma: real, size: nat) returns (matrix: Matrix)
    requires IsBell(bell, sigma) && size % 2 == 1
    ensures fresh(matrix) && fresh(matrix.matrix) && matrix.View() == RowKernel(Gaussian(bell, sigma, size))
  {
    hide Square;
    ghost var raw := Raw(bell, sigma, size);
    RawTotal(bell, sigma, size);
    var nMatrix := new real[1, size]((i, j) => 0.0);
    var sum := 0.0;
    for col := 0 to size
      invariant forall c | 0 <= c < col :: nMatrix[0, c] == raw[c]
      invariant sum == Sum(Entry(raw), 0, col)
    {
      var dCol := size / 2 - col;
      if dCol < 0 { dCol := -dCol; }
      assert raw[col] == bell(sigma, SquaredDistance(size, col)) == bell(sigma, Square(dCol));
      nMatrix[0, col] := bell(sigma, Square(dCol));
      sum := sum + nMatrix[0, col];
    }
    for col := 0 to size
      invariant forall c | 0 <= c < size :: nMatrix[0, c] == if c < col then raw[c] / sum else raw[c]
    {
      nMatrix[0, col] := nMatrix[0, col] / sum;
    }
    matrix := new Matrix.FromArray(nMatrix);
    RowsEqual(matrix.View(), RowKernel(Gaussian(bell, sigma, size)));
  }
}
