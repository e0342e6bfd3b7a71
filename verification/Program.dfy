/**
 The whole program: command line, reader, filters, writer (image_processor/image_processor.cpp).
 The file system is a map from paths to contents.
 */
module Program {
  import opened Wrappers
  import opened FilterTypes
  import opened Pictures
  import opened Filters
  import opened FilterMeaning
  import opened FilterLaws
  import opened Bmp
  import opened BmpLayout
  import opened Grid
  import opened Images
  import opened ImageFiles
  import opened ArgParser

  type Files = map<string, seq<Byte>>

  predicate AllInRange(fs: seq<Filter>) {
    forall i | 0 <= i < |fs| :: InRange(fs[i])
  }

  /** The sizes that the arithmetic of the reader and of the largest kernel can handle. */
  predicate Manageable(h: Header) {
    SmallEnough(h) && h.height + MAX_KERNEL < 0x8000_0000
  }

  // ---------- One file through a list of filters ----------

  function Filtered(m: MathLib, fs: seq<Filter>, b: BmpImage): Result<BmpImage>
    requires SaneMath(m) && AllInRange(fs) && ValidPicture(b.picture) && b.header.imageSize < 0x1_0000_0000
  {
    match RunFilters(m, fs, b.picture)
    case Thrown => Thrown
    case Ok(q) =>
      var size := SizeAfterAll(fs, b.header.imageSize);
      Ok(BmpImage(b.header.(width := q.w, height := q.h, imageSize := size), q))
  }

  lemma FieldsUpdated(h: Header, w: nat, height: nat, size: nat)
    requires HeaderFits(h) && w <= h.width && height <= h.height && size < 0x1_0000_0000
    ensures HeaderFits(h.(width := w, height := height, imageSize := size))
  {
    var h' := h.(width := w, height := height, imageSize := size);
    assert Fields(h') == Fields(h)[6 := w][7 := height][11 := size];
    assert Pow256(4) == 0x1_0000_0000;
    assert SIZES[11] == 4;
  }

  lemma ImageSizeFits(h: Header)
    requires HeaderFits(h)
    ensures h.imageSize < 0x1_0000_0000
  {
    assert Fields(h)[11] < Pow256(SIZES[11]);
    assert Pow256(4) == 0x1_0000_0000;
  }

  lemma ReadFits(file: seq<Byte>)
    requires ReadFile(file).Ok?
    ensures Writable(ReadFile(file).value) && Supported(ReadFile(file).value.header)
  {
    hide ReadFile, Writable, WriteFields, ReadRows;
    ReadIsWritable(file);
  }

  /** Whatever the filters do, the result can be written: it fits the header fields and its channels fit bytes. */
  lemma FilteredWritable(m: MathLib, fs: seq<Filter>, b: BmpImage)
    requires SaneMath(m) && AllInRange(fs) && Writable(b)
    ensures b.header.imageSize < 0x1_0000_0000
    ensures var r := Filtered(m, fs, b);
            r.Ok? ==> && Writable(r.value)
                      && (Supported(b.header) ==> Supported(r.value.header))
                      && (Manageable(b.header) ==> Manageable(r.value.header))
  {
    hide HeaderFits, RunFilters, Fields, Unit;
    ImageSizeFits(b.header);
    var r := RunFilters(m, fs, b.picture);
    if r.Ok? {
      FieldsUpdated(b.header, r.value.w, r.value.h, SizeAfterAll(fs, b.header.imageSize));
    }
  }

  /** What the program writes for an input file. */
  ghost function Process(m: MathLib, fs: seq<Filter>, file: seq<Byte>): Result<seq<Byte>>
    requires SaneMath(m) && AllInRange(fs)
  {
    if ReadFile(file).Thrown? then Thrown
    else
      ReadIsWritable(file);
      FilteredWritable(m, fs, ReadFile(file).value);
      match Filtered(m, fs, ReadFile(file).value)
      case Thrown => Thrown
      case Ok(b) => Ok(WriteFile(b))
  }

  ghost predicate ManageableFile(file: seq<Byte>) {
    ReadFile(file).Ok? ==> Manageable(ReadFile(file).value.header)
  }

  method ProcessFile(m: MathLib, fs: seq<Filter>, file: seq<Byte>) returns (result: Result<seq<Byte>>)
    requires SaneMath(m) && AllInRange(fs) && ManageableFile(file)
    ensures result == Process(m, fs, file)
  {
    hide ReadFile, WriteFile, RunFilters, SizeAfterAll, Writable;
    var ok, h, image := ReadImage(file);
    if !ok { return Thrown; }
    ReadIsWritable(file);
    FilteredWritable(m, fs, BmpImage(h, image.View()));
    ok := image.ApplyFilters(m, fs);
    if !ok { return Thrown; }
    h := h.(width := image.width, height := image.height, imageSize := image.imageSize);
    var bytes := WriteImage(h, image);
    return Ok(bytes);
  }

  /** Without filters the output equals the input exactly for canonical files. */
  lemma NoFilters(m: MathLib, file: seq<Byte>)
    requires SaneMath(m) && ReadFile(file).Ok? && ManageableFile(file)
    ensures var h := ReadFile(file).value.header;
            Process(m, [], file) == Ok(file) <==> Canonical(file, h.height, h.width)
  {
    hide ReadFile, WriteFile, Canonical, Writable;
    ReadIsWritable(file);
    WriteReadIff(file);
    FilteredWritable(m, [], ReadFile(file).value);
  }

  /** Every output can be read again: it is canonical, and holds the filtered picture with its channels rounded
      down to multiples of 1/255. */
  lemma OutputReadsBack(m: MathLib, fs: seq<Filter>, file: seq<Byte>)
    requires SaneMath(m) && AllInRange(fs) && ManageableFile(file) && Process(m, fs, file).Ok?
    ensures ReadFile(file).Ok? && Writable(ReadFile(file).value)
    ensures ReadFile(file).value.header.imageSize < 0x1_0000_0000
    ensures var (out, b) := (Process(m, fs, file).value, Filtered(m, fs, ReadFile(file).value).value);
            && Writable(b) && Supported(b.header) && Manageable(b.header)
            && Canonical(out, b.picture.h, b.picture.w)
            && ReadFile(out) == Ok(BmpImage(b.header, Quantised(b.picture)))
            && ManageableFile(out)
  {
    hide ReadFile, WriteFile, Canonical, Filtered, Quantised, Stride, HeaderFits, Unit, RunFilters, SizeAfterAll;
    ReadFits(file);
    FilteredWritable(m, fs, ReadFile(file).value);
    var b := Filtered(m, fs, ReadFile(file).value).value;
    ReadWrite(b);
    WrittenIsCanonical(b);
  }

  /** The header of the output: that of the input but for the size of the picture and the last crop. */
  lemma OutputHeader(m: MathLib, fs: seq<Filter>, file: seq<Byte>)
    requires SaneMath(m) && AllInRange(fs) && ManageableFile(file) && Process(m, fs, file).Ok?
    ensures HEADERS <= |file| && HEADERS <= |Process(m, fs, file).value|
    ensures var p := RunFilters(m, fs, ReadFile(file).value.picture).value;
            var old' := HeaderOf(file);
            HeaderOf(Process(m, fs, file).value)
            == old'.(width := p.w, height := p.h, imageSize := SizeAfterAll(fs, old'.imageSize))
  {
    hide ReadFile, WriteFile, Canonical, Quantised, HeaderFits, Unit, RunFilters, SizeAfterAll, HeaderOf;
    OutputReadsBack(m, fs, file);
    AcceptedIff(file);
    AcceptedIff(Process(m, fs, file).value);
  }

  /** A crop at the end of a list, for the sizes a crop can have. */
  lemma LastCropSize(fs: seq<Filter>, w: nat, h: nat, size: int)
    requires w < 0x8000 && h < 0x8000
    ensures SizeAfterAll(fs + [Crop(w, h)], size) == h * ((3 * w + 3) / 4 * 4)
  {
    hide CropImageSize;
    SizeAfterConcat(fs, [Crop(w, h)], size);
    SizeAfterOne(Crop(w, h), SizeAfterAll(fs, size));
    CropImageSizeIs(w, h);
  }

  lemma SizeAfterOne(f: Filter, size: int)
    ensures SizeAfterAll([f], size) == SizeAfter(f, size)
  {
    assert SizeAfterAll([f], size) == SizeAfterAll([f][1..], SizeAfter(f, size));
  }

  lemma NegativeByte(k: Byte, x: real, b: Byte)
    requires x == 1.0 - k as real / 255.0 && b as real <= 255.0 * x < b as real + 1.0
    ensures b == 255 - k
  {
  }

  /** From bytes to bytes: the negative of a file with all its rows has each pixel byte subtracted from 255. */
  lemma NegativeBytes(m: MathLib, file: seq<Byte>, h: nat, w: nat, r: nat, c: nat, q: nat)
    requires SaneMath(m) && ReadFile(file).Ok? && |file| >= 54 && h == U32(file, 22) && w == U32(file, 18)
    requires r < h && c < w && q == PixelByte(h, w, r, c) && |file| >= RowStart(w, h)
    ensures AllInRange([Negative]) && Process(m, [Negative], file).Ok? && q + 2 < |file| && q + 2 < |Process(m, [Negative], file).value|
    ensures var out := Process(m, [Negative], file).value;
            out[q] == 255 - file[q] && out[q + 1] == 255 - file[q + 1] && out[q + 2] == 255 - file[q + 2]
  {
    hide ReadFile, WriteFile, HeaderFits, U32, RowLength, RowStart, PixelByte, SaneMath, RunFilters, Writable, SizeAfterAll;
    ReadFits(file);
    AcceptedIff(file);
    var b := ReadFile(file).value;
    PixelIs(file, h, w, r, c, q);
    var n := NegativeIs(m, b.picture, r, c);
    FilteredWritable(m, [Negative], b);
    var out := Filtered(m, [Negative], b).value;
    WrittenNegative(b, out, r, c, q, file);
  }

  lemma WrittenNegative(b: BmpImage, out: BmpImage, r: nat, c: nat, q: nat, file: seq<Byte>)
    requires Writable(out) && ValidPicture(b.picture) && q + 2 < |file|
    requires r < out.picture.h && c < out.picture.w && q == PixelByte(out.picture.h, out.picture.w, r, c)
    requires At(b.picture, r, c) == Pixel(file[q + 2] as real / 255.0, file[q + 1] as real / 255.0, file[q] as real / 255.0)
    requires var x := At(b.picture, r, c); At(out.picture, r, c) == Pixel(1.0 - x.r, 1.0 - x.g, 1.0 - x.b)
    ensures q + 2 < |WriteFile(out)|
    ensures var o := WriteFile(out); o[q] == 255 - file[q] && o[q + 1] == 255 - file[q + 1] && o[q + 2] == 255 - file[q + 2]
  {
    hide WriteFile, HeaderFits, RowLength, RowStart, PixelByte, Unit;
    WrittenPixel(out, r, c, q);
    var (x, o) := (At(out.picture, r, c), WriteFile(out));
    NegativeByte(file[q], x.b, o[q]);
    NegativeByte(file[q + 1], x.g, o[q + 1]);
    NegativeByte(file[q + 2], x.r, o[q + 2]);
  }

  // ---------- Two runs against one ----------

  lemma {:induction false} SizeAfterConcat(a: seq<Filter>, b: seq<Filter>, size: int)
    ensures SizeAfterAll(a + b, size) == SizeAfterAll(b, SizeAfterAll(a, size))
    decreases |a|
  {
    if a == [] {
      assert a + b == b;
    } else {
      assert (a + b)[1..] == a[1..] + b;
      SizeAfterConcat(a[1..], b, SizeAfter(a[0], size));
    }
  }

  lemma FilteredConcat(m: MathLib, a: seq<Filter>, b: seq<Filter>, i: BmpImage)
    requires SaneMath(m) && AllInRange(a) && AllInRange(b) && ValidPicture(i.picture) && i.header.imageSize < 0x1_0000_0000
    ensures AllInRange(a + b)
    ensures Filtered(m, a + b, i)
            == match Filtered(m, a, i)
               case Thrown => Thrown
               case Ok(j) => Filtered(m, b, j)
  {
    hide RunFilters, SizeAfterAll, InRange;
    RunConcat(m, a, b, i.picture);
    SizeAfterConcat(a, b, i.header.imageSize);
  }

  /** Filtering in two runs, through a file, is filtering in one run if the picture in between has channels that
      are multiples of 1/255. */
  lemma ProcessTwice(m: MathLib, a: seq<Filter>, b: seq<Filter>, file: seq<Byte>)
    requires SaneMath(m) && AllInRange(a) && AllInRange(b) && ManageableFile(file)
    requires Process(m, a, file).Ok?
    requires GridPicture(RunFilters(m, a, ReadFile(file).value.picture).value)
    ensures AllInRange(a + b) && Process(m, b, Process(m, a, file).value) == Process(m, a + b, file)
  {
    hide ReadFile, WriteFile, Canonical, Quantised, Stride, HeaderFits, Unit, RunFilters, SizeAfterAll, GridPicture;
    OutputReadsBack(m, a, file);
    var i := ReadFile(file).value;
    FilteredConcat(m, a, b, i);
    ReadWriteExactIff(Filtered(m, a, i).value);
  }

  lemma {:induction false} RunGrid(m: MathLib, fs: seq<Filter>, p: Picture)
    requires SaneMath(m) && AllInRange(fs) && ValidPicture(p) && RunFilters(m, fs, p).Ok?
    requires GridPicture(p) && forall i | 0 <= i < |fs| :: KeepsGrid(fs[i])
    ensures GridPicture(RunFilters(m, fs, p).value)
    decreases |fs|
  {
    hide GridPicture, Apply, InRange, SaneMath;
    if fs != [] {
      ApplyGrid(m, fs[0], p);
      RunGrid(m, fs[1..], Apply(m, fs[0], p).value);
    }
  }

  /** All filters but the conversion to grey and the real blurs may be put into a run of their own in front. */
  lemma GridRunsCompose(m: MathLib, a: seq<Filter>, b: seq<Filter>, file: seq<Byte>)
    requires SaneMath(m) && AllInRange(a) && AllInRange(b) && ManageableFile(file) && Process(m, a, file).Ok?
    requires forall i | 0 <= i < |a| :: KeepsGrid(a[i])
    ensures AllInRange(a + b) && Process(m, b, Process(m, a, file).value) == Process(m, a + b, file)
  {
    hide ReadFile, WriteFile, Canonical, HeaderFits, Unit, RunFilters, SizeAfterAll, GridPicture, KeepsGrid, InRange;
    OutputReadsBack(m, a, file);
    var b' := ReadFile(file).value;
    ReadPictureOnGrid(file);
    RunGrid(m, a, b'.picture);
    ProcessTwice(m, a, b, file);
  }

  lemma ReadPictureOnGrid(file: seq<Byte>)
    requires ReadFile(file).Ok?
    ensures ValidPicture(ReadFile(file).value.picture) && GridPicture(ReadFile(file).value.picture)
  {
    hide ReadFile, GridPicture, ReadRows, WriteFields;
    ReadIsWritable(file);
    var b := ReadFile(file).value;
    ReadPictureIsGrid(file, b.header.height, b.header.width);
  }

  /** Two negatives next to each other may be left out of a list. */
  lemma NegativesCancel(m: MathLib, a: seq<Filter>, b: seq<Filter>, file: seq<Byte>)
    requires SaneMath(m) && AllInRange(a) && AllInRange(b)
    ensures AllInRange(a + [Negative, Negative] + b) && AllInRange(a + b)
    ensures Process(m, a + [Negative, Negative] + b, file) == Process(m, a + b, file)
  {
    hide ReadFile, WriteFile, SaneMath;
    var two := [Negative, Negative];
    assert a + two + b == a + (two + b);
    if ReadFile(file).Ok? {
      ReadFits(file);
      var i := ReadFile(file).value;
      FilteredWritable(m, a, i);
      FilteredConcat(m, a, two + b, i);
      FilteredConcat(m, a, b, i);
      if Filtered(m, a, i).Ok? {
        var j := Filtered(m, a, i).value;
        FilteredConcat(m, two, b, j);
        TwoNegatives(m, j);
      }
    }
  }

  lemma TwoNegatives(m: MathLib, b: BmpImage)
    requires SaneMath(m) && ValidPicture(b.picture) && b.header.imageSize < 0x1_0000_0000
    requires b.header.width == b.picture.w && b.header.height == b.picture.h
    ensures Filtered(m, [Negative, Negative], b) == Ok(b)
  {
    hide SaneMath;
    var two := [Negative, Negative];
    assert two[1..] == [Negative] && two[1..][1..] == [];
    NegationTwice(b.picture);
    assert RunFilters(m, two, b.picture) == RunFilters(m, two[1..], Negated(b.picture));
    assert SizeAfterAll(two, b.header.imageSize) == SizeAfterAll(two[1..], b.header.imageSize);
  }

  lemma PointwiseSize(f: Filter, fs: seq<Filter>, size: int)
    requires f == Negative || f == Grayscale
    ensures SizeAfterAll([f] + fs, size) == SizeAfterAll(fs + [f], size)
  {
    hide SizeAfterAll;
    SizeAfterOne(f, size);
    SizeAfterOne(f, SizeAfterAll(fs, size));
    SizeAfterConcat([f], fs, size);
    SizeAfterConcat(fs, [f], size);
  }

  /** Moving a negative from the front of a list without edge detection to its end changes no byte of the output. */
  lemma NegativeMovesInFile(m: MathLib, fs: seq<Filter>, file: seq<Byte>)
    requires SaneMath(m) && AllInRange(fs) && forall i | 0 <= i < |fs| :: !fs[i].EdgeDetection?
    ensures AllInRange([Negative] + fs) && AllInRange(fs + [Negative])
    ensures Process(m, [Negative] + fs, file) == Process(m, fs + [Negative], file)
  {
    hide ReadFile, WriteFile, RunFilters, SizeAfterAll, SaneMath;
    if ReadFile(file).Ok? {
      ReadFits(file);
      var b := ReadFile(file).value;
      FilteredWritable(m, fs, b);
      NegativeMoves(m, fs, b.picture);
      PointwiseSize(Negative, fs, b.header.imageSize);
    }
  }

  /** Nor does moving a conversion to grey across a list without sharpening. */
  lemma GreyMovesInFile(m: MathLib, fs: seq<Filter>, file: seq<Byte>)
    requires SaneMath(m) && AllInRange(fs) && forall i | 0 <= i < |fs| :: GreySafe(fs[i])
    ensures AllInRange([Grayscale] + fs) && AllInRange(fs + [Grayscale])
    ensures Process(m, [Grayscale] + fs, file) == Process(m, fs + [Grayscale], file)
  {
    hide ReadFile, WriteFile, RunFilters, SizeAfterAll, SaneMath, GreySafe, Unit, HeaderFits;
    if ReadFile(file).Ok? {
      ReadFits(file);
      var b := ReadFile(file).value;
      FilteredWritable(m, fs, b);
      GreyMoves(m, fs, b.picture);
      PointwiseSize(Grayscale, fs, b.header.imageSize);
    }
  }

  // ---------- From the command line to the file system ----------

  lemma {:induction false} FloatNonNegative(s: string)
    requires IsFloat(s)
    ensures FloatValue(s) >= 0.0
  {
  }

  /** Of what the command line accepts only the size of a blur can be out of range. */
  lemma {:induction false} ParsedInRange(args: seq<string>)
    requires ParseFilters(args).Ok?
    ensures forall f | f in ParseFilters(args).value ::
              InRange(f) <==> (f.GaussianBlur? ==> f.sigma * 4.0 < 92682.0)
    decreases |args|
  {
    hide FloatValue, IsFloat;
    if args != [] {
      var t := ParseOption(args).value;
      forall s | s in args && IsFloat(s) ensures FloatValue(s) >= 0.0 { FloatNonNegative(s); }
      ParsedInRange(args[t.count..]);
    }
  }

  predicate BlursFit(fs: seq<Filter>) {
    forall i | 0 <= i < |fs| :: fs[i].GaussianBlur? ==> fs[i].sigma * 4.0 < 92682.0
  }

  function CommandOf(argv: seq<string>, files: Files): (c: Command)
    requires argv != []
    ensures c.Run? ==> c.input in files && |argv| >= 3 && c == Command.Run(argv[1], argv[2], c.filters)
    ensures c.Run? ==> ParseFilters(argv[3..]) == Ok(c.filters)
  {
    var found := |argv| > 1 && argv[1] in files;
    ParseCommand(argv, found, found)
  }

  /** The inputs within the limits of the arithmetic. */
  ghost predicate WithinLimits(argv: seq<string>, files: Files)
    requires argv != []
  {
    var c := CommandOf(argv, files);
    c.Run? ==> BlursFit(c.filters) && ManageableFile(files[c.input])
  }

  lemma CommandInRange(argv: seq<string>, files: Files)
    requires argv != [] && WithinLimits(argv, files) && CommandOf(argv, files).Run?
    ensures AllInRange(CommandOf(argv, files).filters)
  {
    BlursAreTheLimit(argv[3..]);
  }

  /** The files after the program has ended: only a run without an error changes them, and only the output. */
  ghost function FilesAfter(m: MathLib, argv: seq<string>, files: Files): Files
    requires SaneMath(m) && argv != [] && WithinLimits(argv, files)
  {
    var c := CommandOf(argv, files);
    if !c.Run? then files
    else
      CommandInRange(argv, files);
      match Process(m, c.filters, files[c.input])
      case Thrown => files
      case Ok(bytes) => files[c.output := bytes]
  }

  method RunProgram(m: MathLib, argv: seq<string>, files: Files) returns (after: Files)
    requires SaneMath(m) && argv != [] && WithinLimits(argv, files)
    ensures after == FilesAfter(m, argv, files)
  {
    hide Process, ParseCommand, SaneMath, AllInRange;
    var parser := new Parser(argv);
    var found := |argv| > 1 && argv[1] in files;
    var command := parser.Parse(found, found);
    assert command == CommandOf(argv, files);
    if !command.Run? { return files; }
    CommandInRange(argv, files);
    var result := ProcessFile(m, parser.filters, files[command.input]);
    match result
    case Thrown => return files;
    case Ok(bytes) => return files[command.output := bytes];
  }

  lemma CommandIs(exe: string, input: string, output: string, options: seq<string>, files: Files)
    requires input in files && ParseFilters(options).Ok?
    ensures CommandOf([exe, input, output] + options, files) == Command.Run(input, output, ParseFilters(options).value)
  {
    hide ParseFilters;
    assert ([exe, input, output] + options)[3..] == options;
  }

  /** Two commands through an intermediate file give what one command with both lists of options gives, and leave
      the intermediate file behind, if the first list has no conversion to grey and no blur with several weights. */
  lemma CommandsCompose(m: MathLib, exe: string, input: string, middle: string, output: string,
                        a: seq<string>, b: seq<string>, files: Files)
    requires SaneMath(m) && input in files && middle != output && ManageableFile(files[input])
    requires ParseFilters(a).Ok? && AllInRange(ParseFilters(a).value)
    requires ParseFilters(b).Ok? && BlursFit(ParseFilters(b).value)
    requires forall i | 0 <= i < |ParseFilters(a).value| :: KeepsGrid(ParseFilters(a).value[i])
    requires Process(m, ParseFilters(a).value, files[input]).Ok?
    ensures var (first, second, both) := ([exe, input, middle] + a, [exe, middle, output] + b, [exe, input, output] + (a + b));
            && WithinLimits(first, files) && WithinLimits(both, files)
            && var middleFile := Process(m, ParseFilters(a).value, files[input]).value;
               && FilesAfter(m, first, files) == files[middle := middleFile]
               && WithinLimits(second, files[middle := middleFile])
               && FilesAfter(m, second, files[middle := middleFile]) == FilesAfter(m, both, files)[middle := middleFile]
  {
    hide ParseFilters, Process, CommandOf, ManageableFile, SaneMath, InRange, KeepsGrid;
    var (fa, fb) := (ParseFilters(a).value, ParseFilters(b).value);
    ParseConcat(a, b);
    CommandIs(exe, input, middle, a, files);
    CommandIs(exe, input, output, a + b, files);
    BlursAreTheLimit(a);
    BlursAreTheLimit(b);
    GridRunsCompose(m, fa, fb, files[input]);
    OutputReadsBack(m, fa, files[input]);
    CommandIs(exe, middle, output, b, files[middle := Process(m, fa, files[input]).value]);
  }

  lemma BlursAreTheLimit(args: seq<string>)
    requires ParseFilters(args).Ok?
    ensures AllInRange(ParseFilters(args).value) <==> BlursFit(ParseFilters(args).value)
  {
    hide ParseFilters, InRange;
    ParsedInRange(args);
    var fs := ParseFilters(args).value;
    assert forall i | 0 <= i < |fs| :: fs[i] in fs;
  }
}
