/**
 The reader and the writer of image_processor/src/io.cpp with their loops, proved against
 the functions of `Bmp`.
 */
module ImageFiles {
  import opened Wrappers
  import opened Pictures
  import opened Bmp
  import opened Images

  /** An input stream over the bytes of a file. */
  class Input {
    const file: seq<Byte>
    var pos: nat

    constructor (file: seq<Byte>)
      ensures this.file == file && pos == 0
    {
      this.file, pos := file, 0;
    }

    /** Read a little-endian field of `size` bytes. */
    method ReadField(size: nat) returns (value: nat)
      requires pos + size <= |file|
      modifies this
      ensures pos == old(pos) + size && value == FromBytes(file[old(pos)..pos])
    {
      value := FromBytes(file[pos..pos + size]);
      pos := pos + size;
    }

    /** Read into a buffer; at the end of the file the rest of the buffer stays as it is. */
    method ReadInto(buffer: array<Byte>)
      modifies this, buffer
      ensures pos == old(pos) + buffer.Length
      ensures buffer[..] == Fill(file, old(pos), old(buffer[..]))
    {
      for i := 0 to buffer.Length
        invariant pos == old(pos)
        invariant forall k | 0 <= k < buffer.Length ::
                    buffer[k] == if k < i && pos + k < |file| then file[pos + k] else old(buffer[k])
      {
        if pos + i < |file| { buffer[i] := file[pos + i]; }
      }
      pos := pos + buffer.Length;
    }
  }

  /** One field after another. */
  method ReadAll(input: Input, sizes: seq<nat>) returns (values: seq<nat>)
    requires input.pos == 0 && Size(sizes) <= |input.file|
    modifies input
    ensures input.pos == Size(sizes) && values == ReadFields(input.file, sizes)
  {
    values := [];
    assert sizes[0..] == sizes && input.file[0..] == input.file;
    for i := 0 to |sizes|
      invariant input.pos + Size(sizes[i..]) == Size(sizes)
      invariant ReadFields(input.file, sizes) == values + ReadFields(input.file[input.pos..], sizes[i..])
    {
      var rest := input.file[input.pos..];
      assert sizes[i..][1..] == sizes[i + 1..];
      assert rest[..sizes[i]] == input.file[input.pos..input.pos + sizes[i]];
      assert rest[sizes[i]..] == input.file[input.pos + sizes[i]..];
      var value := input.ReadField(sizes[i]);
      values := values + [value];
    }
    assert values + [] == values;
  }

  method WriteAll(values: seq<nat>, sizes: seq<nat>) returns (bytes: seq<Byte>)
    requires |values| == |sizes|
    ensures bytes == WriteFields(values, sizes)
  {
    hide ToBytes;
    bytes := [];
    assert values[0..] == values && sizes[0..] == sizes;
    for i := 0 to |sizes|
      invariant WriteFields(values, sizes) == bytes + WriteFields(values[i..], sizes[i..])
    {
      assert values[i..][1..] == values[i + 1..] && sizes[i..][1..] == sizes[i + 1..];
      bytes := bytes + ToBytes(values[i], sizes[i]);
    }
    assert bytes + [] == bytes;
  }

  lemma NextBuffer(file: seq<Byte>, w: nat, r: nat)
    ensures Start(w, r + 1) == Start(w, r) + Stride(w)
    ensures RowBuffer(file, w, r)
            == Fill(file, Start(w, r), if r == 0 then seq(Stride(w), _ => 0) else RowBuffer(file, w, r - 1))
  {
  }

  /** Fill the pixels from the bottom row up. */
  method ReadPixels(input: Input, pixels: array2<Pixel>)
    requires input.pos == HEADERS
    requires pixels.Length0 < 0x8000_0000 && pixels.Length1 * 3 + 3 < 0x8000_0000
    modifies input, pixels
    ensures RowsOf(pixels) == ReadRows(input.file, pixels.Length0, pixels.Length1).px
  {
    hide Stride, PixelAt, RowBuffer, PixelsOf, ReadRows, Fill;
    var h, w := pixels.Length0, pixels.Length1;
    var buffer := new Byte[Stride(w)](_ => 0);
    for row := 0 to h
      invariant input.pos == Start(w, row)
      invariant buffer[..] == if row == 0 then seq(Stride(w), _ => 0) else RowBuffer(input.file, w, row - 1)
      invariant forall r, c | h - row <= r < h && 0 <= c < w ::
                  pixels[r, c] == PixelAt(RowBuffer(input.file, w, h - 1 - r), c)
    {
      input.ReadInto(buffer);
      NextBuffer(input.file, w, row);
      var realRow := h - row - 1;
      for col := 0 to w
        invariant input.pos == Start(w, row + 1) && buffer[..] == RowBuffer(input.file, w, row)
        invariant forall r, c | h - row <= r < h && 0 <= c < w ::
                    pixels[r, c] == PixelAt(RowBuffer(input.file, w, h - 1 - r), c)
        invariant forall c | 0 <= c < col :: pixels[realRow, c] == PixelAt(RowBuffer(input.file, w, row), c)
      {
        pixels[realRow, col] := PixelAt(buffer[..], col);
      }
    }
    RowsEqual(RowsOf(pixels), ReadRows(input.file, h, w).px);
  }

  /** `ImageReader::ReadFile`. */
  method ReadImage(file: seq<Byte>) returns (ok: bool, h: Header, image: Image?)
    requires ReadFile(file).Ok? ==> SmallEnough(ReadFile(file).value.header)
    ensures ok <==> ReadFile(file).Ok?
    ensures ok ==> image != null && fresh(image) && fresh(image.pixels) && fresh(image.buffer) && image.Valid()
                   && ReadFile(file) == Ok(BmpImage(h, image.View())) && image.imageSize == h.imageSize
  {
    hide ReadRows, PixelAt, RowBuffer, Stride, ReadFields, Fields, SIZES, Size;
    HeaderSize();
    h := Header(0, 0, 0, 0, 0, 0, 0, 0, 0, 0, 0, 0, 0, 0, 0, 0);
    if |file| < HEADERS { return false, h, null; }
    var input := new Input(file);
    var values := ReadAll(input, SIZES);
    h := FromFields(values);
    if !Supported(h) { return false, h, null; }
    var blank := FromPixels(h.height, h.width, (r, c) => BLACK);
    image := new Image(blank, h.imageSize);
    ReadPixels(input, image.pixels);
    ok := true;
  }

  /** One row into the byte buffer; the padding stays as it is. */
  method FillRow(pixels: array2<Pixel>, r: nat, buffer: array<Byte>)
    requires r < pixels.Length0 && buffer.Length == Stride(pixels.Length1)
    requires UnitRow(RowsOf(pixels)[r])
    requires forall i | 3 * pixels.Length1 <= i < buffer.Length :: buffer[i] == 0
    modifies buffer
    ensures buffer[..] == RowOut(RowsOf(pixels)[r])
  {
    ghost var row := RowsOf(pixels)[r];
    var w := pixels.Length1;
    for col := 0 to w
      invariant forall i | 3 * w <= i < buffer.Length :: buffer[i] == 0
      invariant forall i | 0 <= i < 3 * col :: buffer[i] == ByteAt(row, i)
    {
      var px := pixels[r, col];
      assert px == row[col] && UnitPixel(px);
      assert Ch(px, Blue) == px.b && Ch(px, Green) == px.g && Ch(px, Red) == px.r;
      assert (3 * col) / 3 == col && (3 * col + 1) / 3 == col && (3 * col + 2) / 3 == col;
      buffer[3 * col] := GetByte(px.b);
      buffer[3 * col + 1] := GetByte(px.g);
      buffer[3 * col + 2] := GetByte(px.r);
    }
  }

  /** Write the rows from the bottom up. */
  method WritePixels(pixels: array2<Pixel>, ghost p: Picture) returns (bytes: seq<Byte>)
    requires ValidPicture(p) && Unit(p) && RowsOf(pixels) == p.px && pixels.Length0 == p.h && pixels.Length1 == p.w
    ensures bytes == RowsOut(p, p.h)
  {
    hide RowOut, Stride;
    bytes := [];
    var h, w := pixels.Length0, pixels.Length1;
    var buffer := new Byte[Stride(w)](_ => 0);
    for row := 0 to h
      invariant bytes == RowsOut(p, row)
      invariant forall i | 3 * w <= i < buffer.Length :: buffer[i] == 0
    {
      var realRow := h - row - 1;
      RowIsUnit(p, realRow);
      FillRow(pixels, realRow, buffer);
      bytes := bytes + buffer[..];
      RowOutPadding(p.px[realRow], buffer[..]);
    }
  }

  lemma RowOutPadding(row: seq<Pixel>, b: seq<Byte>)
    requires UnitRow(row) && b == RowOut(row)
    ensures forall i | 3 * |row| <= i < |b| :: b[i] == 0
  {
  }

  /** `ImageWriter::WriteFile`: the headers field by field, then the pixels. */
  method WriteImage(h: Header, image: Image) returns (bytes: seq<Byte>)
    requires image.Valid() && Writable(BmpImage(h, image.View()))
    ensures bytes == WriteFile(BmpImage(h, image.View()))
  {
    hide RowsOut, WriteFields, Fields, HeaderFits, SIZES;
    bytes := WriteAll(Fields(h), SIZES);
    var rows := WritePixels(image.pixels, image.View());
    bytes := bytes + rows;
  }
}
