/**
 Where every byte of a BMP file is, in plain arithmetic (image_processor/src/io.cpp):
 a header of 54 bytes, then the rows from the bottom up, each a multiple of four bytes long.
 */
module BmpLayout {
  import opened Wrappers
  import opened Pictures
  import opened Bmp

  // ---------- Fields ----------

  function Low(a: int, b: int): (n: int)
    ensures 0 <= a && 0 <= b ==> 0 <= n
  {
    a + 0x100 * b
  }

  /** Two and four bytes, the lowest first. */
  function U16(file: seq<Byte>, i: nat): nat
    requires i + 2 <= |file|
  {
    Low(file[i], file[i + 1])
  }

  function U32(file: seq<Byte>, i: nat): nat
    requires i + 4 <= |file|
  {
    Low(file[i], file[i + 1]) + 0x1_0000 * Low(file[i + 2], file[i + 3])
  }

  lemma FromTwo(b: seq<Byte>)
    requires |b| == 2
    ensures FromBytes(b) == Low(b[0], b[1])
  {
    assert b[1..][1..] == [];
    assert FromBytes(b[1..]) == b[1] + 0x100 * FromBytes(b[1..][1..]);
  }

  lemma FromFour(b: seq<Byte>)
    requires |b| == 4
    ensures FromBytes(b) == Low(b[0], b[1]) + 0x1_0000 * Low(b[2], b[3])
  {
    assert b[1..][1..] == b[2..];
    FromTwo(b[2..]);
    assert FromBytes(b[1..]) == b[1] + 0x100 * FromBytes(b[2..]);
  }

  lemma {:induction false} SizePrefix(sizes: seq<nat>, k: nat)
    requires k < |sizes|
    ensures Size(sizes[..k + 1]) == Size(sizes[..k]) + sizes[k]
    decreases k
  {
    if k > 0 {
      SizePrefix(sizes[1..], k - 1);
      assert sizes[..k + 1][1..] == sizes[1..][..k] && sizes[..k][1..] == sizes[1..][..k - 1];
    } else {
      assert sizes[..1][1..] == [];
    }
  }

  lemma {:induction false} SizeAtLeast(sizes: seq<nat>, k: nat)
    requires k <= |sizes|
    ensures Size(sizes[..k]) <= Size(sizes)
    decreases |sizes| - k
  {
    if k < |sizes| {
      SizePrefix(sizes, k);
      SizeAtLeast(sizes, k + 1);
    } else {
      assert sizes[..k] == sizes;
    }
  }

  /** Each field is read from its own bytes. */
  lemma {:induction false} FieldIs(b: seq<Byte>, sizes: seq<nat>, k: nat)
    requires |b| >= Size(sizes) && k < |sizes|
    ensures Size(sizes[..k]) + sizes[k] <= |b|
    ensures ReadFields(b, sizes)[k] == FromBytes(b[Size(sizes[..k])..Size(sizes[..k]) + sizes[k]])
    decreases k
  {
    hide FromBytes;
    SizePrefix(sizes, k);
    SizeAtLeast(sizes, k + 1);
    if k > 0 {
      var rest := b[sizes[0]..];
      FieldIs(rest, sizes[1..], k - 1);
      assert sizes[..k][1..] == sizes[1..][..k - 1];
      var (i, n) := (Size(sizes[1..][..k - 1]), sizes[k]);
      assert rest[i..i + n] == b[sizes[0] + i..sizes[0] + i + n];
    }
  }

  const OFFSETS: seq<nat> := [0, 2, 6, 8, 10, 14, 18, 22, 26, 28, 30, 34, 38, 42, 46, 50]

  lemma {:induction false} OffsetIs(k: nat)
    requires k < 16
    ensures Size(SIZES[..k]) == OFFSETS[k]
  {
    if k > 0 {
      OffsetIs(k - 1);
      SizePrefix(SIZES, k - 1);
    }
  }

  lemma FieldBetween(b: seq<Byte>, sizes: seq<nat>, k: nat, n: nat, i: nat)
    requires |b| >= Size(sizes) && k < |sizes| && sizes[k] == n && Size(sizes[..k]) == i
    ensures i + n <= |b| && ReadFields(b, sizes)[k] == FromBytes(b[i..i + n])
  {
    FieldIs(b, sizes, k);
  }

  lemma FieldAt(file: seq<Byte>, k: nat, n: nat, i: nat)
    requires HEADERS <= |file| && k < 16 && SIZES[k] == n && OFFSETS[k] == i
    ensures Size(SIZES) == HEADERS && i + n <= |file|
    ensures ReadFields(file, SIZES)[k] == FromBytes(file[i..i + n])
  {
    hide Size, ReadFields, FromBytes;
    HeaderSize();
    OffsetIs(k);
    FieldBetween(file, SIZES, k, n, i);
  }

  /** One field of a header, by its number. */
  lemma TwoByteField(file: seq<Byte>, k: nat, i: nat)
    requires HEADERS <= |file| && k < 16 && SIZES[k] == 2 && OFFSETS[k] == i
    ensures Size(SIZES) == HEADERS && i + 2 <= |file| && ReadFields(file, SIZES)[k] == U16(file, i)
  {
    hide Size, ReadFields, FromBytes, SIZES, OFFSETS, Low;
    FieldAt(file, k, 2, i);
    FromTwo(file[i..i + 2]);
  }

  lemma FourByteField(file: seq<Byte>, k: nat, i: nat)
    requires HEADERS <= |file| && k < 16 && SIZES[k] == 4 && OFFSETS[k] == i
    ensures Size(SIZES) == HEADERS && i + 4 <= |file| && ReadFields(file, SIZES)[k] == U32(file, i)
  {
    hide Size, ReadFields, FromBytes, SIZES, OFFSETS, Low;
    FieldAt(file, k, 4, i);
    FromFour(file[i..i + 4]);
  }

  function HeaderOf(file: seq<Byte>): Header
    requires HEADERS <= |file|
  {
    Header(U16(file, 0), U32(file, 2), U16(file, 6), U16(file, 8), U32(file, 10),
           U32(file, 14), U32(file, 18), U32(file, 22), U16(file, 26), U16(file, 28), U32(file, 30), U32(file, 34),
           U32(file, 38), U32(file, 42), U32(file, 46), U32(file, 50))
  }

  lemma HeaderIs(file: seq<Byte>)
    requires HEADERS <= |file|
    ensures Size(SIZES) == HEADERS && ReadFields(file, SIZES) == Fields(HeaderOf(file))
  {
    HeaderSize();
    hide ReadFields, Size, U16, U32;
    var (x, y) := (ReadFields(file, SIZES), Fields(HeaderOf(file)));
    forall k | 0 <= k < 16 ensures x[k] == y[k] {
      if SIZES[k] == 2 { TwoByteField(file, k, OFFSETS[k]); } else { FourByteField(file, k, OFFSETS[k]); }
    }
    assert |x| == 16 == |y|;
  }

  lemma SignatureIs(a: Byte, b: Byte)
    ensures Low(a, b) == 0x4D42 <==> a == 0x42 && b == 0x4D
  {
  }

  lemma AcceptedHeader(file: seq<Byte>)
    requires |file| >= 54
    ensures ReadFile(file).Ok? <==> Supported(HeaderOf(file))
    ensures ReadFile(file).Ok? ==> ReadFile(file).value.header == HeaderOf(file)
  {
    HeaderIs(file);
    FromFieldsBack(HeaderOf(file));
    hide ReadFields, Size, SIZES, Fields, FromFields, HeaderOf, ReadRows, Supported;
  }

  /** Exactly the files that are read: 54 bytes at least, the signature "BM", a header of 40 bytes, 24 bits, no
      compression and no palette. */
  lemma AcceptedIff(file: seq<Byte>)
    ensures ReadFile(file).Ok?
            <==> && |file| >= 54 && file[0] == 0x42 && file[1] == 0x4D
                 && U32(file, 14) == 40 && U16(file, 28) == 24 && U32(file, 30) == 0 && U32(file, 46) == 0
    ensures ReadFile(file).Ok? ==> ReadFile(file).value.header == HeaderOf(file)
  {
    if |file| >= 54 {
      hide ReadFile, Low, U32;
      AcceptedHeader(file);
      SignatureIs(file[0], file[1]);
    }
  }

  lemma FromFieldsBack(h: Header)
    ensures FromFields(Fields(h)) == h
  {
  }

  // ---------- Rows ----------

  /** The length of a row: three bytes for each pixel, rounded up to a multiple of four. */
  function RowLength(w: nat): nat { (3 * w + 3) / 4 * 4 }

  lemma StrideIs(w: nat)
    ensures Stride(w) == RowLength(w)
  {
  }

  /** Where row `n` of the file begins. */
  function RowStart(w: nat, n: nat): (p: nat)
    ensures p == 54 + n * RowLength(w)
  {
    hide RowLength;
    54 + n * RowLength(w)
  }

  lemma StartIs(w: nat, n: nat)
    ensures Start(w, n) == RowStart(w, n)
  {
    hide RowLength, Stride;
    StartIsProduct(w, n);
    StrideIs(w);
  }

  /** The byte of a pixel that is first in the file: blue, then green, then red. */
  function PixelByte(h: nat, w: nat, r: nat, c: nat): nat
    requires r < h
  {
    RowStart(w, h - 1 - r) + 3 * c
  }

  lemma PixelByteInside(h: nat, w: nat, r: nat, c: nat)
    requires r < h && c < w
    ensures PixelByte(h, w, r, c) == Start(w, h - 1 - r) + 3 * c
    ensures PixelByte(h, w, r, c) + 2 < Start(w, h - r) <= Start(w, h) == RowStart(w, h)
  {
    hide RowLength, Stride;
    StartIs(w, h - 1 - r);
    StartIs(w, h - r);
    StartIs(w, h);
    StartMonotone(w, h - r, h);
  }

  /** In a file with all its rows every pixel is read from its own three bytes. */
  lemma PixelIs(file: seq<Byte>, h: nat, w: nat, r: nat, c: nat, q: nat)
    requires ReadFile(file).Ok? && |file| >= 54 && h == U32(file, 22) && w == U32(file, 18)
    requires r < h && c < w && q == PixelByte(h, w, r, c)
    requires |file| >= RowStart(w, h)
    ensures q + 2 < |file|
    ensures var p := ReadFile(file).value.picture;
            && ValidPicture(p) && p.h == h && p.w == w
            && At(p, r, c) == Pixel(file[q + 2] as real / 255.0, file[q + 1] as real / 255.0, file[q] as real / 255.0)
  {
    hide ReadFile, ReadRows, U16, U32, RowLength, RowStart, PixelByte, Start;
    AcceptedIff(file);
    PixelByteInside(h, w, r, c);
    ReadPicture(file);
    RowOfPixels(file, h, w, r, c);
  }

  lemma ReadPicture(file: seq<Byte>)
    requires ReadFile(file).Ok?
    ensures var b := ReadFile(file).value; b.picture == ReadRows(file, b.header.height, b.header.width)
  {
    hide ReadRows;
  }

  lemma RowOfPixels(file: seq<Byte>, h: nat, w: nat, r: nat, c: nat)
    requires r < h && c < w && Start(w, h) <= |file|
    ensures var q := PixelByte(h, w, r, c);
            && q + 2 < |file|
            && At(ReadRows(file, h, w), r, c)
               == Pixel(file[q + 2] as real / 255.0, file[q + 1] as real / 255.0, file[q] as real / 255.0)
  {
    hide RowBuffer, Start, PixelByte;
    PixelByteInside(h, w, r, c);
    FullRow(file, w, h - 1 - r);
    assert ReadRows(file, h, w).px[r] == PixelsOf(file, w, h - 1 - r);
  }

  // ---------- Writing ----------

  /** A channel is cut down to a byte. */
  lemma GetByteIs(x: real)
    requires 0.0 <= x <= 1.0
    ensures GetByte(x) as real <= 255.0 * x < GetByte(x) as real + 1.0
  {
  }

  lemma WrittenLength(b: BmpImage)
    requires Writable(b)
    ensures |WriteFile(b)| == RowStart(b.header.width, b.header.height)
  {
    hide WriteFile, Fields, Size, SIZES, ReadFields, HeaderFits, Unit, RowLength, RowStart, Start;
    WrittenHead(b);
    StartIs(b.picture.w, b.picture.h);
  }

  lemma WrittenHeader(b: BmpImage)
    requires Writable(b)
    ensures |WriteFile(b)| >= HEADERS && HeaderOf(WriteFile(b)) == b.header
  {
    hide WriteFile, Fields, Size, SIZES, ReadFields, HeaderFits, Unit, Start, HeaderOf;
    WrittenHead(b);
    StartMonotone(b.picture.w, 0, b.picture.h);
    HeaderIs(WriteFile(b));
    FromFieldsBack(HeaderOf(WriteFile(b)));
    FromFieldsBack(b.header);
  }

  lemma RowByte(row: seq<Pixel>, c: nat)
    requires UnitRow(row) && c < |row|
    ensures RowOut(row)[3 * c] == GetByte(Ch(row[c], Blue))
    ensures RowOut(row)[3 * c + 1] == GetByte(Ch(row[c], Green))
    ensures RowOut(row)[3 * c + 2] == GetByte(Ch(row[c], Red))
  {
    assert (3 * c) / 3 == c && (3 * c + 1) / 3 == c && (3 * c + 2) / 3 == c;
  }

  /** Every pixel of a written file is in its own three bytes, each channel cut down to a byte. */
  lemma WrittenPixel(b: BmpImage, r: nat, c: nat, q: nat)
    requires Writable(b) && r < b.picture.h && c < b.picture.w && q == PixelByte(b.picture.h, b.picture.w, r, c)
    ensures q + 2 < |WriteFile(b)|
    ensures var (file, x) := (WriteFile(b), At(b.picture, r, c));
            && file[q] as real <= 255.0 * x.b < file[q] as real + 1.0
            && file[q + 1] as real <= 255.0 * x.g < file[q + 1] as real + 1.0
            && file[q + 2] as real <= 255.0 * x.r < file[q + 2] as real + 1.0
  {
    hide WriteFile, RowBuffer, HeaderFits, RowOut, Start, GetByte, Unit, RowLength, RowStart, PixelByte;
    var (file, h, w) := (WriteFile(b), b.picture.h, b.picture.w);
    var n := h - 1 - r;
    PixelByteInside(h, w, r, c);
    WrittenRow(b, n);
    RowIsUnit(b.picture, r);
    var row := b.picture.px[r];
    RowByte(row, c);
    assert RowBytes(file, w, n) == RowOut(row);
    assert file[q] == RowOut(row)[3 * c] && file[q + 1] == RowOut(row)[3 * c + 1] && file[q + 2] == RowOut(row)[3 * c + 2];
    assert UnitPixel(row[c]) && At(b.picture, r, c) == row[c];
    GetByteIs(Ch(row[c], Blue));
    GetByteIs(Ch(row[c], Green));
    GetByteIs(Ch(row[c], Red));
  }

  /** And everything else in the rows is zero. */
  lemma WrittenPaddingZero(b: BmpImage, n: nat, i: nat, q: nat)
    requires Writable(b) && n < b.picture.h && 3 * b.picture.w <= i < RowLength(b.picture.w)
    requires q == RowStart(b.picture.w, n) + i
    ensures q < |WriteFile(b)| && WriteFile(b)[q] == 0
  {
    hide WriteFile, HeaderFits, RowBuffer, Stride, Unit, RowLength, RowStart, Start;
    var w := b.picture.w;
    WrittenRow(b, n);
    WrittenPadding(b, n);
    StartIs(w, n);
    NextStart(w, n);
  }

  lemma NextStart(w: nat, n: nat)
    ensures Start(w, n + 1) == Start(w, n) + RowLength(w)
  {
    hide RowLength, Stride;
    StrideIs(w);
  }

  // ---------- Files that are too short ----------

  lemma FillAt(file: seq<Byte>, w: nat, n: nat, i: nat)
    requires i < Stride(w)
    ensures RowBuffer(file, w, n)[i]
            == if Start(w, n) + i < |file| then file[Start(w, n) + i] else if n == 0 then 0 else RowBuffer(file, w, n - 1)[i]
  {
    hide Stride;
  }

  /** Row `k` is the last one up to `n` that still has its byte `i` in the file. */
  ghost predicate LastRowWith(file: seq<Byte>, w: nat, n: nat, i: nat, k: nat) {
    k <= n && RowStart(w, k) + i < |file| && (k < n ==> |file| <= RowStart(w, k + 1) + i)
  }

  /** Of a byte that is missing the last row that has it is shown, and 0 if no row has it. */
  lemma {:induction false} MissingByte(file: seq<Byte>, w: nat, n: nat, i: nat, k: nat)
    requires i < RowLength(w)
    ensures i < |RowBuffer(file, w, n)|
    ensures LastRowWith(file, w, n, i, k) ==> RowBuffer(file, w, n)[i] == file[RowStart(w, k) + i]
    ensures |file| <= 54 + i ==> RowBuffer(file, w, n)[i] == 0
    decreases n
  {
    StrideIs(w);
    hide RowLength, Stride, RowBuffer, RowStart;
    StartIs(w, n);
    FillAt(file, w, n, i);
    StartMonotone(w, 0, n);
    if n > 0 {
      MissingByte(file, w, n - 1, i, k);
      StartIs(w, k + 1);
      if k < n { StartMonotone(w, k + 1, n); }
    }
  }
}
