/**
 Reading and writing 24-bit BMP files (image_processor/src/io.cpp and
 image_processor/include/pixel.h).  A file is its sequence of bytes.
 */
module Bmp {
  import opened Wrappers
  import opened Pictures
  import Images

  type Byte = x: int | 0 <= x < 0x100

  // ---------- Little-endian fields ----------

  function Pow256(k: nat): (p: nat)
    ensures p > 0
  {
    if k == 0 then 1 else 0x100 * Pow256(k - 1)
  }

  function ToBytes(n: nat, k: nat): (b: seq<Byte>)
    ensures |b| == k
  {
    if k == 0 then [] else [n % 0x100] + ToBytes(n / 0x100, k - 1)
  }

  function FromBytes(b: seq<Byte>): nat {
    if b == [] then 0 else b[0] + 0x100 * FromBytes(b[1..])
  }

  lemma {:induction false} FromToBytes(n: nat, k: nat)
    requires n < Pow256(k)
    ensures FromBytes(ToBytes(n, k)) == n
  {
    if k > 0 { FromToBytes(n / 0x100, k - 1); }
  }

  lemma {:induction false} ToFromBytes(b: seq<Byte>)
    ensures FromBytes(b) < Pow256(|b|) && ToBytes(FromBytes(b), |b|) == b
  {
    if b != [] {
      ToFromBytes(b[1..]);
      var n := FromBytes(b);
      assert n % 0x100 == b[0] && n / 0x100 == FromBytes(b[1..]);
    }
  }

  /** Fields of the given sizes, one after another. */
  function WriteFields(values: seq<nat>, sizes: seq<nat>): seq<Byte>
    requires |values| == |sizes|
  {
    if sizes == [] then [] else ToBytes(values[0], sizes[0]) + WriteFields(values[1..], sizes[1..])
  }

  function Size(sizes: seq<nat>): nat {
    if sizes == [] then 0 else sizes[0] + Size(sizes[1..])
  }

  function ReadFields(b: seq<Byte>, sizes: seq<nat>): (values: seq<nat>)
    requires |b| >= Size(sizes)
    ensures |values| == |sizes|
  {
    if sizes == [] then [] else [FromBytes(b[..sizes[0]])] + ReadFields(b[sizes[0]..], sizes[1..])
  }

  ghost predicate FieldsFit(values: seq<nat>, sizes: seq<nat>) {
    |values| == |sizes| && forall i | 0 <= i < |sizes| :: values[i] < Pow256(sizes[i])
  }

  lemma {:induction false} ReadWrittenFields(values: seq<nat>, sizes: seq<nat>, rest: seq<Byte>)
    requires FieldsFit(values, sizes)
    ensures |WriteFields(values, sizes)| == Size(sizes)
    ensures ReadFields(WriteFields(values, sizes) + rest, sizes) == values
    decreases |sizes|
  {
    if sizes != [] {
      var first, others := ToBytes(values[0], sizes[0]), WriteFields(values[1..], sizes[1..]);
      FromToBytes(values[0], sizes[0]);
      ReadWrittenFields(values[1..], sizes[1..], rest);
      var all := WriteFields(values, sizes) + rest;
      assert all == first + (others + rest);
      assert all[..sizes[0]] == first && all[sizes[0]..] == others + rest;
    }
  }

  lemma {:induction false} WriteReadFields(b: seq<Byte>, sizes: seq<nat>)
    requires |b| >= Size(sizes)
    ensures FieldsFit(ReadFields(b, sizes), sizes)
    ensures WriteFields(ReadFields(b, sizes), sizes) == b[..Size(sizes)]
    decreases |sizes|
  {
    if sizes != [] {
      ToFromBytes(b[..sizes[0]]);
      WriteReadFields(b[sizes[0]..], sizes[1..]);
      assert b[..Size(sizes)] == b[..sizes[0]] + b[sizes[0]..][..Size(sizes[1..])];
      assert ReadFields(b, sizes)[1..] == ReadFields(b[sizes[0]..], sizes[1..]);
    }
  }

  // ---------- The headers ----------

  datatype Header = Header(
    signature: nat, fileSize: nat, reserved1: nat, reserved2: nat, dataOffset: nat,
    headerSize: nat, width: nat, height: nat, planes: nat, bitsPerPixel: nat, compression: nat, imageSize: nat,
    xPixelsPerMeter: nat, yPixelsPerMeter: nat, colorsUsed: nat, colorsImportant: nat)

  const SIZES: seq<nat> := [2, 4, 2, 2, 4, 4, 4, 4, 2, 2, 4, 4, 4, 4, 4, 4]
  const HEADERS := 54

  function Fields(h: Header): (f: seq<nat>)
    ensures |f| == |SIZES|
  {
    [h.signature, h.fileSize, h.reserved1, h.reserved2, h.dataOffset, h.headerSize, h.width, h.height, h.planes,
     h.bitsPerPixel, h.compression, h.imageSize, h.xPixelsPerMeter, h.yPixelsPerMeter, h.colorsUsed,
     h.colorsImportant]
  }

  function FromFields(f: seq<nat>): (h: Header)
    requires |f| == |SIZES|
    ensures Fields(h) == f
  {
    Header(f[0], f[1], f[2], f[3], f[4], f[5], f[6], f[7], f[8], f[9], f[10], f[11], f[12], f[13], f[14], f[15])
  }

  lemma SizeOf4(a: nat, b: nat, c: nat, d: nat, rest: seq<nat>)
    ensures Size([a, b, c, d] + rest) == a + b + c + d + Size(rest)
  {
    var s, t, u, v := [a, b, c, d] + rest, [b, c, d] + rest, [c, d] + rest, [d] + rest;
    assert s[1..] == t && t[1..] == u && u[1..] == v && v[1..] == rest;
    assert Size(v) == d + Size(rest);
    assert Size(u) == c + Size(v);
    assert Size(t) == b + Size(u);
    assert Size(s) == a + Size(t);
  }

  lemma HeaderSize()
    ensures Size(SIZES) == HEADERS
  {
    SizeOf4(2, 4, 2, 2, [4, 4, 4, 4] + ([2, 2, 4, 4] + ([4, 4, 4, 4] + [])));
    SizeOf4(4, 4, 4, 4, [2, 2, 4, 4] + ([4, 4, 4, 4] + []));
    SizeOf4(2, 2, 4, 4, [4, 4, 4, 4] + []);
    SizeOf4(4, 4, 4, 4, []);
    assert SIZES == [2, 4, 2, 2] + ([4, 4, 4, 4] + ([2, 2, 4, 4] + ([4, 4, 4, 4] + [])));
  }

  ghost predicate HeaderFits(h: Header) {
    FieldsFit(Fields(h), SIZES)
  }

  /** `Check`: the headers describe an uncompressed 24-bit file without a palette. */
  predicate Supported(h: Header) {
    h.signature == 0x4D42 && h.headerSize == 40 && h.bitsPerPixel == 24 && h.compression == 0 && h.colorsUsed == 0
  }

  /** The sizes that the arithmetic of the reader can handle. */
  predicate SmallEnough(h: Header) {
    h.width * 3 + 3 < 0x8000_0000 && h.height < 0x8000_0000
  }

  // ---------- Pixels and bytes ----------

  function FromByte(b: Byte): (x: real)
    ensures 0.0 <= x <= 1.0
  {
    b as real / 255.0
  }

  function GetByte(x: real): Byte
    requires 0.0 <= x <= 1.0
  {
    (x * 255.0).Floor
  }

  lemma ByteRoundTrip(b: Byte)
    ensures GetByte(FromByte(b)) == b
  {
    assert FromByte(b) * 255.0 == b as real;
  }

  function Padding(w: nat): (p: nat)
    ensures p < 4
  {
    (4 - w * 3 % 4) % 4
  }

  function Stride(w: nat): (s: nat)
    ensures s >= w * 3
  {
    w * 3 + Padding(w)
  }

  /** The three bytes of a pixel in a row, blue first. */
  function PixelAt(row: seq<Byte>, col: nat): Pixel
    requires 3 * col + 2 < |row|
  {
    Pixel(FromByte(row[3 * col + 2]), FromByte(row[3 * col + 1]), FromByte(row[3 * col]))
  }

  ghost predicate UnitRow(row: seq<Pixel>) {
    forall c | 0 <= c < |row| :: UnitPixel(row[c])
  }

  function ByteAt(row: seq<Pixel>, i: nat): Byte
    requires UnitRow(row)
  {
    if i >= 3 * |row| then 0
    else GetByte(Ch(row[i / 3], if i % 3 == 0 then Blue else if i % 3 == 1 then Green else Red))
  }

  /** A row as it is written: blue, green, red of each pixel, then zeros. */
  function RowOut(row: seq<Pixel>): (b: seq<Byte>)
    requires UnitRow(row)
    ensures |b| == Stride(|row|)
  {
    seq(Stride(|row|), i requires i >= 0 => ByteAt(row, i))
  }

  /** Where file row `r` starts. */
  function Start(w: nat, r: nat): (pos: nat)
    ensures pos >= HEADERS
  {
    if r == 0 then HEADERS else Start(w, r - 1) + Stride(w)
  }

  lemma {:induction false} StartIsProduct(w: nat, r: nat)
    ensures Start(w, r) == HEADERS + r * Stride(w)
  {
    if r > 0 { StartIsProduct(w, r - 1); }
  }

  /** A read that may be cut short by the end of the file: bytes that are not there stay as they were. */
  function Fill(file: seq<Byte>, pos: nat, old': seq<Byte>): (b: seq<Byte>)
    ensures |b| == |old'|
  {
    seq(|old'|, i requires 0 <= i < |old'| => if pos + i < |file| then file[pos + i] else old'[i])
  }

  /** The row buffer after file row `r` has been read. */
  function RowBuffer(file: seq<Byte>, w: nat, r: nat): (b: seq<Byte>)
    ensures |b| == Stride(w)
  {
    Fill(file, Start(w, r), if r == 0 then seq(Stride(w), _ => 0) else RowBuffer(file, w, r - 1))
  }

  datatype BmpImage = BmpImage(header: Header, picture: Picture)

  /** The pixels of file row `r`. */
  function PixelsOf(file: seq<Byte>, w: nat, r: nat): (row: seq<Pixel>)
    ensures |row| == w && forall c | 0 <= c < w :: row[c] == PixelAt(RowBuffer(file, w, r), c)
  {
    hide RowBuffer, Padding;
    var buffer := RowBuffer(file, w, r);
    seq(w, c requires 0 <= c < w => PixelAt(buffer, c))
  }

  /** Rows are stored from the bottom up. */
  function ReadRows(file: seq<Byte>, h: nat, w: nat): (p: Picture)
    ensures ValidPicture(p) && p.h == h && p.w == w
    ensures forall r | 0 <= r < h :: p.px[r] == PixelsOf(file, w, h - 1 - r)
  {
    hide RowBuffer, PixelAt, Stride, PixelsOf;
    Picture(h, w, seq(h, r requires 0 <= r < h => PixelsOf(file, w, h - 1 - r)))
  }

  function ReadFile(file: seq<Byte>): Result<BmpImage> {
    HeaderSize();
    if |file| < HEADERS then Thrown
    else
      var h := FromFields(ReadFields(file, SIZES));
      if !Supported(h) then Thrown else Ok(BmpImage(h, ReadRows(file, h.height, h.width)))
  }

  lemma RowIsUnit(p: Picture, r: nat)
    requires ValidPicture(p) && Unit(p) && r < p.h
    ensures UnitRow(p.px[r])
  {
    forall c | 0 <= c < p.w ensures UnitPixel(p.px[r][c]) { assert Inside(p, r, c) && UnitPixel(At(p, r, c)); }
  }

  function PictureRow(p: Picture, r: nat): seq<Byte>
    requires ValidPicture(p) && Unit(p) && r < p.h
  {
    RowIsUnit(p, r);
    RowOut(p.px[r])
  }

  /** The first `n` rows of the file. */
  function RowsOut(p: Picture, n: nat): seq<Byte>
    requires ValidPicture(p) && Unit(p) && n <= p.h
  {
    if n == 0 then []
    else
      RowsOut(p, n - 1) + PictureRow(p, p.h - n)
  }

  ghost predicate Writable(b: BmpImage) {
    && HeaderFits(b.header)
    && ValidPicture(b.picture) && Unit(b.picture)
    && b.picture.h == b.header.height && b.picture.w == b.header.width
  }

  function WriteFile(b: BmpImage): seq<Byte>
    requires Writable(b)
  {
    WriteFields(Fields(b.header), SIZES) + RowsOut(b.picture, b.picture.h)
  }

  // ---------- Row arithmetic ----------

  lemma {:induction false} StartMonotone(w: nat, a: nat, b: nat)
    requires a <= b
    ensures Start(w, a) <= Start(w, b)
    decreases b - a
  {
    hide Stride;
    if a < b { StartMonotone(w, a, b - 1); }
  }

  lemma {:induction false} RowsOutLength(p: Picture, n: nat)
    requires ValidPicture(p) && Unit(p) && n <= p.h
    ensures HEADERS + |RowsOut(p, n)| == Start(p.w, n)
  {
    hide Stride, RowOut;
    if n > 0 { RowsOutLength(p, n - 1); }
  }

  /** The bytes of file row `r`. */
  function RowBytes(file: seq<Byte>, w: nat, r: nat): seq<Byte>
    requires Start(w, r + 1) <= |file|
  {
    file[Start(w, r)..Start(w, r + 1)]
  }

  /** In a file with all its rows the buffer holds just the bytes of the row. */
  lemma FullRow(file: seq<Byte>, w: nat, r: nat)
    requires Start(w, r + 1) <= |file|
    ensures RowBuffer(file, w, r) == RowBytes(file, w, r)
  {
    hide Stride;
  }

  // ---------- Reading what was written ----------

  /** A channel after it has gone through a byte. */
  function Quantise(x: real): real
    requires 0.0 <= x <= 1.0
  {
    FromByte(GetByte(x))
  }

  function QuantisePixel(p: Pixel): Pixel
    requires UnitPixel(p)
  {
    Pixel(Quantise(Ch(p, Red)), Quantise(Ch(p, Green)), Quantise(Ch(p, Blue)))
  }

  function Quantised(p: Picture): (q: Picture)
    requires ValidPicture(p) && Unit(p)
    ensures ValidPicture(q) && q.h == p.h && q.w == p.w
  {
    Picture(p.h, p.w, seq(p.h, r requires 0 <= r < p.h =>
      seq(p.w, c requires 0 <= c < p.w => RowIsUnit(p, r); QuantisePixel(p.px[r][c]))))
  }

  lemma PixelOfRowOut(row: seq<Pixel>, c: nat)
    requires UnitRow(row) && c < |row|
    ensures PixelAt(RowOut(row), c) == QuantisePixel(row[c])
  {
    assert (3 * c) / 3 == c && (3 * c + 1) / 3 == c && (3 * c + 2) / 3 == c;
  }

  lemma SliceOfFront(a: seq<Byte>, b: seq<Byte>, i: nat, j: nat)
    requires i <= j <= |a|
    ensures (a + b)[i..j] == a[i..j]
  {
  }

  lemma SliceOfBack(a: seq<Byte>, b: seq<Byte>)
    ensures (a + b)[|a|..|a| + |b|] == b
  {
  }

  lemma LastRowOut(p: Picture, n: nat)
    requires ValidPicture(p) && Unit(p) && 0 < n <= p.h
    ensures RowsOut(p, n) == RowsOut(p, n - 1) + PictureRow(p, p.h - n)
    ensures Start(p.w, n) == Start(p.w, n - 1) + |PictureRow(p, p.h - n)|
  {
    hide Stride, RowOut;
  }

  /** The rows of a file are found where they were written. */
  lemma {:induction false} RowsOutSlice(head: seq<Byte>, p: Picture, n: nat, r: nat)
    requires |head| == HEADERS && ValidPicture(p) && Unit(p) && r < n <= p.h
    ensures Start(p.w, r + 1) <= |head + RowsOut(p, n)|
    ensures RowBytes(head + RowsOut(p, n), p.w, r) == PictureRow(p, p.h - 1 - r)
    decreases n
  {
    hide Stride, PictureRow, RowsOut, Unit, Start;
    RowsOutLength(p, n);
    RowsOutLength(p, n - 1);
    LastRowOut(p, n);
    var (init, row) := (head + RowsOut(p, n - 1), PictureRow(p, p.h - n));
    assert head + RowsOut(p, n) == init + row;
    StartMonotone(p.w, r, r + 1);
    if r < n - 1 {
      StartMonotone(p.w, r + 1, n - 1);
      RowsOutSlice(head, p, n - 1, r);
      SliceOfFront(init, row, Start(p.w, r), Start(p.w, r + 1));
    } else {
      SliceOfBack(init, row);
    }
  }

  lemma WrittenHead(b: BmpImage)
    requires Writable(b)
    ensures |WriteFields(Fields(b.header), SIZES)| == HEADERS
    ensures |WriteFile(b)| == Start(b.picture.w, b.picture.h)
    ensures Size(SIZES) == HEADERS && ReadFields(WriteFile(b), SIZES) == Fields(b.header)
  {
    hide Fields;
    HeaderSize();
    RowsOutLength(b.picture, b.picture.h);
    ReadWrittenFields(Fields(b.header), SIZES, RowsOut(b.picture, b.picture.h));
  }

  lemma WrittenRow(b: BmpImage, r: nat)
    requires Writable(b) && r < b.picture.h
    ensures Start(b.picture.w, r + 1) <= |WriteFile(b)|
    ensures RowBytes(WriteFile(b), b.picture.w, r) == PictureRow(b.picture, b.picture.h - 1 - r)
    ensures RowBuffer(WriteFile(b), b.picture.w, r) == PictureRow(b.picture, b.picture.h - 1 - r)
  {
    hide Fields, Stride, RowOut, RowBuffer;
    WrittenHead(b);
    RowsOutSlice(WriteFields(Fields(b.header), SIZES), b.picture, b.picture.h, r);
    FullRow(WriteFile(b), b.picture.w, r);
  }

  lemma WrittenPicture(b: BmpImage)
    requires Writable(b)
    ensures ReadRows(WriteFile(b), b.picture.h, b.picture.w) == Quantised(b.picture)
  {
    hide RowOut, RowBuffer, WriteFile, PixelAt, QuantisePixel;
    var p := b.picture;
    var (x, y) := (ReadRows(WriteFile(b), p.h, p.w), Quantised(p));
    forall r, c | 0 <= r < p.h && 0 <= c < p.w ensures x.px[r][c] == y.px[r][c] {
      WrittenRow(b, p.h - 1 - r);
      RowIsUnit(p, r);
      PixelOfRowOut(p.px[r], c);
    }
    Images.RowsEqual(x.px, y.px);
  }

  /** Reading a written file gives the headers back and every channel rounded down to a multiple of 1/255. */
  lemma ReadWrite(b: BmpImage)
    requires Writable(b) && Supported(b.header) && SmallEnough(b.header)
    ensures |WriteFile(b)| == HEADERS + b.header.height * Stride(b.header.width)
    ensures ReadFile(WriteFile(b)) == Ok(BmpImage(b.header, Quantised(b.picture)))
  {
    WrittenHead(b);
    StartIsProduct(b.header.width, b.header.height);
    assert FromFields(Fields(b.header)) == b.header;
    hide Fields, FromFields, WriteFile, ReadRows, Quantised, Stride;
    WrittenPicture(b);
  }

  ghost predicate OnGrid(x: real) {
    exists k: Byte :: x == FromByte(k)
  }

  ghost predicate GridPixel(p: Pixel) {
    forall c :: OnGrid(Ch(p, c))
  }

  ghost predicate GridPicture(p: Picture)
    requires ValidPicture(p)
  {
    forall r, c | Inside(p, r, c) :: GridPixel(At(p, r, c))
  }

  lemma QuantiseFixed(x: real)
    requires 0.0 <= x <= 1.0
    ensures Quantise(x) == x <==> OnGrid(x)
  {
    if OnGrid(x) {
      var k: Byte :| x == FromByte(k);
      ByteRoundTrip(k);
    }
  }

  lemma QuantisePixelFixed(p: Pixel)
    requires UnitPixel(p)
    ensures QuantisePixel(p) == p <==> GridPixel(p)
  {
    hide OnGrid, Quantise;
    QuantiseFixed(Ch(p, Red));
    QuantiseFixed(Ch(p, Green));
    QuantiseFixed(Ch(p, Blue));
  }

  /** A written image reads back unchanged exactly when every channel is a multiple of 1/255. */
  lemma ReadWriteExactIff(b: BmpImage)
    requires Writable(b) && Supported(b.header) && SmallEnough(b.header)
    ensures ReadFile(WriteFile(b)) == Ok(b) <==> GridPicture(b.picture)
  {
    hide QuantisePixel, GridPixel, ReadFile, WriteFile, HeaderFits;
    ReadWrite(b);
    var (p, q) := (b.picture, Quantised(b.picture));
    forall r, c | Inside(p, r, c) ensures At(q, r, c) == At(p, r, c) <==> GridPixel(At(p, r, c)) {
      assert UnitPixel(At(p, r, c));
      QuantisePixelFixed(At(p, r, c));
    }
    if GridPicture(p) { PicturesEqual(q, p); }
  }

  // ---------- Writing what was read ----------

  lemma ReadPictureIsGrid(file: seq<Byte>, h: nat, w: nat)
    ensures Unit(ReadRows(file, h, w)) && GridPicture(ReadRows(file, h, w))
  {
    hide RowBuffer;
    var p := ReadRows(file, h, w);
    forall r, c | Inside(p, r, c) ensures UnitPixel(At(p, r, c)) && GridPixel(At(p, r, c)) {
      PixelOnGrid(RowBuffer(file, w, h - 1 - r), c);
    }
  }

  lemma PixelOnGrid(row: seq<Byte>, c: nat)
    requires 3 * c + 2 < |row|
    ensures UnitPixel(PixelAt(row, c)) && GridPixel(PixelAt(row, c))
  {
  }

  lemma ReadIsWritable(file: seq<Byte>)
    requires ReadFile(file).Ok?
    ensures Size(SIZES) == HEADERS && Writable(ReadFile(file).value) && Supported(ReadFile(file).value.header)
    ensures HEADERS <= |file| && WriteFields(Fields(ReadFile(file).value.header), SIZES) == file[..HEADERS]
    ensures var b := ReadFile(file).value; b.picture == ReadRows(file, b.header.height, b.header.width)
  {
    hide ReadRows, RowBuffer, Size, SIZES, ReadFields, FieldsFit, WriteFields, Unit, GridPicture, PixelAt;
    HeaderSize();
    WriteReadFields(file, SIZES);
    var h := ReadFile(file).value.header;
    ReadPictureIsGrid(file, h.height, h.width);
  }

  ghost predicate PaddingZero(file: seq<Byte>, w: nat, r: nat) {
    forall j | Start(w, r) + w * 3 <= j < Start(w, r + 1) && j < |file| :: file[j] == 0
  }

  /** The file has all its rows and nothing after them, and the padding of each row is zero. */
  ghost predicate Canonical(file: seq<Byte>, h: nat, w: nat) {
    |file| == Start(w, h) && forall r | 0 <= r < h :: PaddingZero(file, w, r)
  }

  /** Writing the pixels of a row buffer gives that buffer back, if its padding is zero. */
  lemma RowOutOfBuffer(row: seq<Pixel>, buffer: seq<Byte>)
    requires UnitRow(row) && |buffer| == Stride(|row|)
    requires forall c | 0 <= c < |row| :: row[c] == PixelAt(buffer, c)
    requires forall i | |row| * 3 <= i < |buffer| :: buffer[i] == 0
    ensures RowOut(row) == buffer
  {
    forall i | 0 <= i < |buffer| ensures RowOut(row)[i] == buffer[i] {
      if i < 3 * |row| {
        var c := i / 3;
        assert row[c] == PixelAt(buffer, c) && i == 3 * c + i % 3;
        ByteRoundTrip(buffer[3 * c]);
        ByteRoundTrip(buffer[3 * c + 1]);
        ByteRoundTrip(buffer[3 * c + 2]);
      }
    }
  }

  lemma CanonicalRow(file: seq<Byte>, h: nat, w: nat, r: nat)
    requires Canonical(file, h, w) && r < h
    requires Unit(ReadRows(file, h, w))
    ensures Start(w, r + 1) <= |file|
    ensures PictureRow(ReadRows(file, h, w), h - 1 - r) == RowBytes(file, w, r)
  {
    hide RowOut, PixelAt;
    StartMonotone(w, r + 1, h);
    FullRow(file, w, r);
    var (row, buffer) := (ReadRows(file, h, w).px[h - 1 - r], RowBytes(file, w, r));
    assert PaddingZero(file, w, r);
    RowIsUnit(ReadRows(file, h, w), h - 1 - r);
    forall c | 0 <= c < w ensures row[c] == PixelAt(buffer, c) {
      assert ReadRows(file, h, w).px[h - 1 - r][c] == PixelAt(RowBuffer(file, w, r), c);
    }
    forall i | w * 3 <= i < |buffer| ensures buffer[i] == 0 {
      assert buffer[i] == file[Start(w, r) + i];
    }
    RowOutOfBuffer(row, buffer);
  }

  lemma {:induction false} CanonicalRows(file: seq<Byte>, h: nat, w: nat, n: nat)
    requires Canonical(file, h, w) && n <= h
    requires Unit(ReadRows(file, h, w))
    ensures HEADERS <= Start(w, n) <= |file| && RowsOut(ReadRows(file, h, w), n) == file[HEADERS..Start(w, n)]
    decreases n
  {
    hide ReadRows, RowOut, Stride, Unit, PaddingZero, RowBuffer, PixelsOf;
    StartMonotone(w, n, h);
    if n > 0 {
      CanonicalRows(file, h, w, n - 1);
      CanonicalRow(file, h, w, n - 1);
      assert file[HEADERS..Start(w, n)] == file[HEADERS..Start(w, n - 1)] + file[Start(w, n - 1)..Start(w, n)];
    }
  }

  lemma WrittenPadding(b: BmpImage, r: nat)
    requires Writable(b) && r < b.picture.h
    ensures PaddingZero(WriteFile(b), b.picture.w, r)
  {
    hide WriteFile, RowBuffer;
    var (w, file) := (b.picture.w, WriteFile(b));
    WrittenRow(b, r);
    var row := b.picture.px[b.picture.h - 1 - r];
    RowIsUnit(b.picture, b.picture.h - 1 - r);
    forall j | Start(w, r) + w * 3 <= j < Start(w, r + 1) && j < |file| ensures file[j] == 0 {
      assert file[j] == RowBytes(file, w, r)[j - Start(w, r)] == RowOut(row)[j - Start(w, r)];
    }
  }

  /** Written files are canonical. */
  lemma WrittenIsCanonical(b: BmpImage)
    requires Writable(b)
    ensures Canonical(WriteFile(b), b.header.height, b.header.width)
  {
    hide WriteFile, Fields, PaddingZero, Start;
    WrittenHead(b);
    forall r | 0 <= r < b.picture.h ensures PaddingZero(WriteFile(b), b.picture.w, r) { WrittenPadding(b, r); }
  }

  lemma CanonicalBack(b: BmpImage, file: seq<Byte>)
    requires Writable(b) && Canonical(file, b.picture.h, b.picture.w) && HEADERS <= |file|
    requires b.picture == ReadRows(file, b.picture.h, b.picture.w)
    requires WriteFields(Fields(b.header), SIZES) == file[..HEADERS]
    ensures WriteFile(b) == file
  {
    hide ReadRows, Fields, RowsOut, PaddingZero, WriteFields, HeaderFits, Unit;
    CanonicalRows(file, b.picture.h, b.picture.w, b.picture.h);
    assert file == file[..HEADERS] + file[HEADERS..];
  }

  /** Writing what was read gives the same bytes exactly for the files of the right length with zero padding. */
  lemma WriteReadIff(file: seq<Byte>)
    requires ReadFile(file).Ok? && SmallEnough(ReadFile(file).value.header)
    ensures Writable(ReadFile(file).value)
    ensures var b := ReadFile(file).value;
            WriteFile(b) == file <==> Canonical(file, b.header.height, b.header.width)
  {
    hide ReadFile, ReadRows, WriteFile, Canonical, WriteFields, HeaderFits, Unit;
    ReadIsWritable(file);
    var b := ReadFile(file).value;
    WrittenIsCanonical(b);
    if Canonical(file, b.header.height, b.header.width) { CanonicalBack(b, file); }
  }

  lemma SuffixRows(file: seq<Byte>, suffix: seq<Byte>, h: nat, w: nat)
    requires Start(w, h) <= |file|
    ensures ReadRows(file + suffix, h, w) == ReadRows(file, h, w)
  {
    hide Start, Stride, RowBuffer, PixelsOf;
    var (x, y) := (ReadRows(file + suffix, h, w), ReadRows(file, h, w));
    forall r | 0 <= r < h ensures x.px[r] == y.px[r] {
      var n := h - 1 - r;
      StartMonotone(w, n, n + 1);
      StartMonotone(w, n + 1, h);
      SliceOfFront(file, suffix, Start(w, n), Start(w, n + 1));
      FullRow(file, w, n);
      FullRow(file + suffix, w, n);
      SameBuffer(file, file + suffix, w, n);
    }
    assert x.px == y.px;
  }

  lemma SameBuffer(a: seq<Byte>, b: seq<Byte>, w: nat, r: nat)
    requires RowBuffer(a, w, r) == RowBuffer(b, w, r)
    ensures PixelsOf(a, w, r) == PixelsOf(b, w, r)
  {
    hide RowBuffer, PixelAt;
  }

  lemma SuffixHead(b: BmpImage, suffix: seq<Byte>)
    requires Writable(b)
    ensures Size(SIZES) == HEADERS && |WriteFile(b) + suffix| >= HEADERS
    ensures ReadFields(WriteFile(b) + suffix, SIZES) == Fields(b.header)
  {
    hide Fields, Size, SIZES, WriteFields, ReadFields, RowsOut, Start, Unit;
    WrittenHead(b);
    var rows := RowsOut(b.picture, b.picture.h);
    ReadWrittenFields(Fields(b.header), SIZES, rows + suffix);
    assert WriteFile(b) + suffix == WriteFields(Fields(b.header), SIZES) + (rows + suffix);
  }

  lemma ReadFileIs(file: seq<Byte>, h: Header)
    requires Size(SIZES) == HEADERS <= |file| && ReadFields(file, SIZES) == Fields(h) && Supported(h)
    ensures ReadFile(file) == Ok(BmpImage(h, ReadRows(file, h.height, h.width)))
  {
    assert FromFields(Fields(h)) == h;
    hide ReadRows, Fields, FromFields, Size, SIZES, ReadFields;
  }

  /** Bytes after the last row are read over. */
  lemma SuffixIgnored(b: BmpImage, suffix: seq<Byte>)
    requires Writable(b) && Supported(b.header)
    ensures ReadFile(WriteFile(b) + suffix) == ReadFile(WriteFile(b))
  {
    hide Fields, ReadFile, WriteFile, ReadRows, Size, SIZES, ReadFields, Start, Unit, Supported;
    WrittenHead(b);
    SuffixHead(b, suffix);
    SuffixRows(WriteFile(b), suffix, b.picture.h, b.picture.w);
    ReadFileIs(WriteFile(b), b.header);
    ReadFileIs(WriteFile(b) + suffix, b.header);
  }

  /** Every image has a file that is not written back as it was read: its own with a byte appended. */
  lemma TrailingByteLost(b: BmpImage)
    requires Writable(b) && Supported(b.header) && SmallEnough(b.header)
    ensures var file := WriteFile(b) + [0];
            && ReadFile(file).Ok? && Writable(ReadFile(file).value)
            && WriteFile(ReadFile(file).value) != file
  {
    hide ReadFile, WriteFile, HeaderFits, Unit, Quantised, Start, PaddingZero;
    var file := WriteFile(b) + [0];
    SuffixIgnored(b, [0]);
    ReadWrite(b);
    WrittenHead(b);
    WriteReadIff(file);
  }
}
