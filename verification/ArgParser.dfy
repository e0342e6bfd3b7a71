/**
 The command line of the image processor (image_processor/src/parser.cpp and
 image_processor/src/fabrics.cpp).  `std::atof` is read as an exact real number.
 */
module ArgParser {
  import opened Wrappers
  import opened Decimal
  import opened FilterTypes

  const MAX_LENGTH := 9

  // ---------- Checks of one argument ----------

  predicate IsInteger(s: string) {
    |s| <= MAX_LENGTH && AllDigits(s)
  }

  function DotCount(s: string): nat {
    if s == "" then 0 else DotCount(s[..|s| - 1]) + if s[|s| - 1] == '.' then 1 else 0
  }

  predicate IsFloat(s: string) {
    |s| <= MAX_LENGTH && (forall i | 0 <= i < |s| :: IsDigit(s[i]) || s[i] == '.') && DotCount(s) <= 1
  }

  predicate IsNotNull(s: string) {
    exists i | 0 <= i < |s| :: s[i] != '.' && s[i] != '0'
  }

  method CheckInteger(s: string) returns (ok: bool)
    ensures ok <==> IsInteger(s)
  {
    if |s| > MAX_LENGTH { return false; }
    for i := 0 to |s|
      invariant forall k | 0 <= k < i :: IsDigit(s[k])
    {
      if !IsDigit(s[i]) { return false; }
    }
    return true;
  }

  method CheckFloat(s: string) returns (ok: bool)
    ensures ok <==> IsFloat(s)
  {
    if |s| > MAX_LENGTH { return false; }
    var dots := 0;
    for i := 0 to |s|
      invariant forall k | 0 <= k < i :: IsDigit(s[k]) || s[k] == '.'
      invariant dots == DotCount(s[..i])
    {
      if !IsDigit(s[i]) && s[i] != '.' { return false; }
      assert s[..i + 1][..i] == s[..i];
      if s[i] == '.' { dots := dots + 1; }
    }
    assert s[..|s|] == s;
    return dots <= 1;
  }

  method CheckNotNull(s: string) returns (ok: bool)
    ensures ok <==> IsNotNull(s)
  {
    for i := 0 to |s|
      invariant forall k | 0 <= k < i :: s[k] == '.' || s[k] == '0'
    {
      if s[i] != '.' && s[i] != '0' { return true; }
    }
    return false;
  }

  // ---------- Values ----------

  /** The index of the first dot, or the length. */
  function DotIndex(s: string): (d: nat)
    ensures d <= |s| && (d < |s| ==> s[d] == '.')
    ensures forall i | 0 <= i < d :: s[i] != '.'
  {
    if s == "" || s[0] == '.' then 0 else DotIndex(s[1..]) + 1
  }

  lemma {:induction false} DotCountConcat(a: string, b: string)
    ensures DotCount(a + b) == DotCount(a) + DotCount(b)
    decreases |b|
  {
    if b == "" {
      assert a + b == a;
    } else {
      assert (a + b)[..|a + b| - 1] == a + b[..|b| - 1];
      DotCountConcat(a, b[..|b| - 1]);
    }
  }

  lemma {:induction false} NoDots(s: string)
    ensures DotCount(s) == 0 <==> forall i | 0 <= i < |s| :: s[i] != '.'
  {
    if s != "" {
      NoDots(s[..|s| - 1]);
      assert forall i | 0 <= i < |s| - 1 :: s[..|s| - 1][i] == s[i];
    }
  }

  /** Around its first dot a number splits into two runs of digits. */
  lemma FloatParts(s: string)
    requires IsFloat(s)
    ensures AllDigits(s[..DotIndex(s)])
    ensures DotIndex(s) < |s| ==> AllDigits(s[DotIndex(s) + 1..])
  {
    var d := DotIndex(s);
    if d < |s| {
      assert s == s[..d + 1] + s[d + 1..];
      DotCountConcat(s[..d + 1], s[d + 1..]);
      NoDots(s[..d + 1]);
      assert s[..d + 1][d] == '.';
      NoDots(s[d + 1..]);
      var tail := s[d + 1..];
      forall i | 0 <= i < |tail| ensures IsDigit(tail[i]) { assert tail[i] == s[d + 1 + i] && tail[i] != '.'; }
    }
  }

  function FloatValue(s: string): real
    requires IsFloat(s)
  {
    FloatParts(s);
    var d := DotIndex(s);
    Number(s[..d]) as real
    + if d < |s| then Number(s[d + 1..]) as real / Pow10(|s| - d - 1) as real else 0.0
  }

  function MakeCrop(width: string, height: string): Result<Filter> {
    if IsInteger(height) && IsNotNull(height) && IsInteger(width) && IsNotNull(width)
    then Ok(Crop(Int16(Number(width)), Int16(Number(height)))) else Thrown
  }

  function MakeEdge(value: string): Result<Filter> {
    if IsFloat(value) then Ok(EdgeDetection(FloatValue(value))) else Thrown
  }

  function MakeBlur(value: string): Result<Filter> {
    if IsFloat(value) then Ok(GaussianBlur(FloatValue(value))) else Thrown
  }

  function MakeTunnel(h: string, w: string, strength: string, radius: string): Result<Filter> {
    if IsInteger(h) && IsInteger(w) && IsFloat(strength) && IsFloat(radius)
    then Ok(Tunnel(Number(h), Number(w), FloatValue(strength), FloatValue(radius))) else Thrown
  }

  // ---------- The argument list ----------

  /** The filters that the option at the front gives (none for an unknown one) and how many arguments it takes. */
  datatype ParsedOption = Taken(filters: seq<Filter>, count: nat)

  function One(r: Result<Filter>, count: nat): Result<ParsedOption> {
    if r.Ok? then Ok(Taken([r.value], count)) else Thrown
  }

  function ParseOption(args: seq<string>): (r: Result<ParsedOption>)
    requires args != []
    ensures r.Ok? ==> 0 < r.value.count <= |args|
  {
    var a := args[0];
    if a == "" || a[0] != '-' then Thrown
    else if a == "-crop" then if |args| <= 2 then Thrown else One(MakeCrop(args[1], args[2]), 3)
    else if a == "-gs" then Ok(Taken([Grayscale], 1))
    else if a == "-neg" then Ok(Taken([Negative], 1))
    else if a == "-sharp" then Ok(Taken([Sharpening], 1))
    else if a == "-edge" then if |args| <= 1 then Thrown else One(MakeEdge(args[1]), 2)
    else if a == "-blur" then if |args| <= 1 then Thrown else One(MakeBlur(args[1]), 2)
    else if a == "-tunnel" then
      if |args| <= 4 then Thrown else One(MakeTunnel(args[1], args[2], args[3], args[4]), 5)
    else Ok(Taken([], 1))
  }

  function After(filters: seq<Filter>, rest: Result<seq<Filter>>): Result<seq<Filter>> {
    if rest.Ok? then Ok(filters + rest.value) else Thrown
  }

  function ParseFilters(args: seq<string>): Result<seq<Filter>>
    decreases |args|
  {
    if args == [] then Ok([])
    else
      match ParseOption(args)
      case Thrown => Thrown
      case Ok(t) => After(t.filters, ParseFilters(args[t.count..]))
  }

  lemma AfterNothing(r: Result<seq<Filter>>)
    ensures After([], r) == r
  {
    assert r.Ok? ==> [] + r.value == r.value;
  }

  lemma AfterAfter(a: seq<Filter>, b: seq<Filter>, r: Result<seq<Filter>>)
    ensures After(a + b, r) == After(a, After(b, r))
  {
    assert r.Ok? ==> (a + b) + r.value == a + (b + r.value);
  }

  lemma ParseOptionConcat(a: seq<string>, b: seq<string>)
    requires a != [] && ParseOption(a).Ok?
    ensures ParseOption(a + b) == ParseOption(a)
    ensures var n := ParseOption(a).value.count; (a + b)[n..] == a[n..] + b
  {
  }

  /** An accepted list of arguments keeps its meaning whatever follows it. */
  lemma {:induction false} ParseConcat(a: seq<string>, b: seq<string>)
    requires ParseFilters(a).Ok?
    ensures ParseFilters(a + b) == After(ParseFilters(a).value, ParseFilters(b))
    decreases |a|
  {
    if a == [] {
      assert a + b == b;
      AfterNothing(ParseFilters(b));
    } else {
      var t := ParseOption(a).value;
      ParseOptionConcat(a, b);
      ParseConcat(a[t.count..], b);
      AfterAfter(t.filters, ParseFilters(a[t.count..]).value, ParseFilters(b));
    }
  }

  datatype Command = Help | Error | Run(input: string, output: string, filters: seq<Filter>)

  /** `exists'` and `isFile` are what the file system says about the input path. */
  function ParseCommand(argv: seq<string>, exists': bool, isFile: bool): Command {
    if |argv| == 1 then Help
    else if |argv| < 3 || !exists' || !isFile then Error
    else
      match ParseFilters(argv[3..])
      case Ok(filters) => Run(argv[1], argv[2], filters)
      case Thrown => Error
  }

  // ---------- The class ----------

  class Parser {
    const argv: seq<string>
    var filters: seq<Filter>

    constructor (argv: seq<string>)
      ensures this.argv == argv && filters == []
    {
      this.argv, filters := argv, [];
    }

    method PushCrop(width: string, height: string) returns (ok: bool)
      modifies this
      ensures ok <==> MakeCrop(width, height).Ok?
      ensures ok ==> filters == old(filters) + [MakeCrop(width, height).value]
    {
      ok := CheckInteger(height);
      if ok { ok := CheckNotNull(height); }
      if ok { ok := CheckInteger(width); }
      if ok { ok := CheckNotNull(width); }
      if ok { filters := filters + [Crop(Int16(Number(width)), Int16(Number(height)))]; }
    }

    method PushTunnel(h: string, w: string, strength: string, radius: string) returns (ok: bool)
      modifies this
      ensures ok <==> MakeTunnel(h, w, strength, radius).Ok?
      ensures ok ==> filters == old(filters) + [MakeTunnel(h, w, strength, radius).value]
    {
      ok := CheckInteger(h);
      if ok { ok := CheckInteger(w); }
      if ok { ok := CheckFloat(strength); }
      if ok { ok := CheckFloat(radius); }
      if ok { filters := filters + [Tunnel(Number(h), Number(w), FloatValue(strength), FloatValue(radius))]; }
    }

    method Parse(exists': bool, isFile: bool) returns (command: Command)
      requires filters == []
      modifies this
      ensures command == ParseCommand(argv, exists', isFile)
      ensures command.Run? ==> filters == command.filters
    {
      var argc := |argv|;
      if argc == 1 { return Help; }
      if argc < 3 || !exists' || !isFile { return Error; }
      ghost var all := ParseFilters(argv[3..]);
      var cur := 3;
      AfterNothing(all);
      while cur < argc
        invariant 3 <= cur <= argc
        invariant all == After(filters, ParseFilters(argv[cur..]))
      {
        ghost var rest := argv[cur..];
        var ok, option := true, argv[cur];
        ghost var before := filters;
        var next := cur + 1;
        if option == "" || option[0] != '-' { return Error; }
        if option == "-crop" {
          if argc <= cur + 2 { return Error; }
          ok := PushCrop(argv[cur + 1], argv[cur + 2]);
          next := cur + 3;
        } else if option == "-gs" {
          filters := filters + [Grayscale];
        } else if option == "-neg" {
          filters := filters + [Negative];
        } else if option == "-sharp" {
          filters := filters + [Sharpening];
        } else if option == "-edge" {
          if argc <= cur + 1 { return Error; }
          ok := CheckFloat(argv[cur + 1]);
          if ok { filters := filters + [EdgeDetection(FloatValue(argv[cur + 1]))]; }
          next := cur + 2;
        } else if option == "-blur" {
          if argc <= cur + 1 { return Error; }
          ok := CheckFloat(argv[cur + 1]);
          if ok { filters := filters + [GaussianBlur(FloatValue(argv[cur + 1]))]; }
          next := cur + 2;
        } else if option == "-tunnel" {
          if argc <= cur + 4 { return Error; }
          ok := PushTunnel(argv[cur + 1], argv[cur + 2], argv[cur + 3], argv[cur + 4]);
          next := cur + 5;
        }
        if !ok { return Error; }
        assert ParseOption(rest).Ok? && ParseOption(rest).value.count == next - cur;
        assert filters == before + ParseOption(rest).value.filters;
        assert rest[next - cur..] == argv[next..];
        AfterAfter(before, ParseOption(rest).value.filters, ParseFilters(argv[next..]));
        cur := next;
      }
      return Run(argv[1], argv[2], filters);
    }
  }

  // ---------- Printing ----------

  /** The decimal number mantissa / 10^places. */
  datatype Fixed = Fixed(mantissa: nat, places: nat)

  function FixedValue(f: Fixed): real {
    f.mantissa as real / Pow10(f.places) as real
  }

  function Padded(n: nat, k: nat): string {
    if k == 0 then "" else Padded(n / 10, k - 1) + [Digit(n % 10)]
  }

  function Div(m: nat, p: nat): nat
    requires p > 0
  {
    m / p
  }

  function Whole(f: Fixed): nat {
    Div(f.mantissa, Pow10(f.places))
  }

  function Part(f: Fixed): (r: nat)
    ensures r < Pow10(f.places)
  {
    f.mantissa % Pow10(f.places)
  }

  function PrintFixed(f: Fixed): string {
    ToString(Whole(f)) + if f.places == 0 then "" else "." + Padded(Part(f), f.places)
  }

  /** A filter with its numbers as they can be written on a command line. */
  datatype Printed =
    | PCrop(width: nat, height: nat)
    | PGrayscale
    | PNegative
    | PSharpening
    | PEdge(threshold: Fixed)
    | PBlur(sigma: Fixed)
    | PTunnel(centerH: nat, centerW: nat, strength: Fixed, radius: Fixed)

  predicate FitsFixed(f: Fixed) { |PrintFixed(f)| <= MAX_LENGTH }

  predicate Fits(p: Printed) {
    match p
    case PCrop(w, h) => 1 <= w < 0x8000 && 1 <= h < 0x8000
    case PEdge(t) => FitsFixed(t)
    case PBlur(s) => FitsFixed(s)
    case PTunnel(h, w, s, r) => h < Pow10(MAX_LENGTH) && w < Pow10(MAX_LENGTH) && FitsFixed(s) && FitsFixed(r)
    case _ => true
  }

  function Meaning(p: Printed): Filter {
    match p
    case PCrop(w, h) => Crop(w, h)
    case PGrayscale => Grayscale
    case PNegative => Negative
    case PSharpening => Sharpening
    case PEdge(t) => EdgeDetection(FixedValue(t))
    case PBlur(s) => GaussianBlur(FixedValue(s))
    case PTunnel(h, w, s, r) => Tunnel(h, w, FixedValue(s), FixedValue(r))
  }

  function Print(p: Printed): seq<string> {
    match p
    case PCrop(w, h) => ["-crop", ToString(w), ToString(h)]
    case PGrayscale => ["-gs"]
    case PNegative => ["-neg"]
    case PSharpening => ["-sharp"]
    case PEdge(t) => ["-edge", PrintFixed(t)]
    case PBlur(s) => ["-blur", PrintFixed(s)]
    case PTunnel(h, w, s, r) => ["-tunnel", ToString(h), ToString(w), PrintFixed(s), PrintFixed(r)]
  }

  function PrintAll(ps: seq<Printed>): seq<string> {
    if ps == [] then [] else Print(ps[0]) + PrintAll(ps[1..])
  }

  function Meanings(ps: seq<Printed>): seq<Filter> {
    if ps == [] then [] else [Meaning(ps[0])] + Meanings(ps[1..])
  }

  lemma {:induction false} PaddedNumber(n: nat, k: nat)
    requires n < Pow10(k)
    ensures |Padded(n, k)| == k && AllDigits(Padded(n, k)) && Number(Padded(n, k)) == n
  {
    if k > 0 {
      PaddedNumber(n / 10, k - 1);
      assert Padded(n, k)[..k - 1] == Padded(n / 10, k - 1);
    }
  }

  lemma {:induction false} DotIndexOf(a: string, b: string)
    requires AllDigits(a)
    ensures DotIndex(a) == |a| && DotIndex(a + "." + b) == |a|
  {
    if a != "" {
      assert IsDigit(a[0]);
      assert (a + "." + b)[1..] == a[1..] + "." + b;
      DotIndexOf(a[1..], b);
    } else {
      assert (a + "." + b)[0] == '.';
    }
  }

  lemma Quotient(m: nat, p: nat)
    requires p > 0
    ensures (m / p) as real + (m % p) as real / p as real == m as real / p as real
  {
    var q, r := m / p, m % p;
    assert m == q * p + r;
    assert m as real == q as real * p as real + r as real;
    assert (q as real * p as real) / p as real == q as real;
  }

  lemma DigitsAreFloat(a: string)
    requires AllDigits(a)
    ensures DotCount(a) == 0
  {
    forall i | 0 <= i < |a| ensures a[i] != '.' { assert IsDigit(a[i]); }
    NoDots(a);
  }

  lemma FixedParts(f: Fixed)
    ensures Whole(f) as real + Part(f) as real / Pow10(f.places) as real == FixedValue(f)
  {
    Quotient(f.mantissa, Pow10(f.places));
  }

  lemma WholeValue(whole: string)
    requires AllDigits(whole) && |whole| <= MAX_LENGTH
    ensures IsFloat(whole) && FloatValue(whole) == Number(whole) as real
  {
    DigitsAreFloat(whole);
    DotIndexOf(whole, "");
    assert whole[..|whole|] == whole;
  }

  lemma PointDots(whole: string, frac: string)
    requires AllDigits(whole) && AllDigits(frac)
    ensures DotCount(whole + "." + frac) == 1
  {
    DigitsAreFloat(whole);
    DigitsAreFloat(frac);
    DotCountConcat(whole + ".", frac);
    DotCountConcat(whole, ".");
    assert "."[..0] == "";
  }

  lemma PointIsFloat(whole: string, frac: string)
    requires AllDigits(whole) && AllDigits(frac) && |whole + "." + frac| <= MAX_LENGTH
    ensures IsFloat(whole + "." + frac)
  {
    hide DotCount;
    PointDots(whole, frac);
    var s := whole + "." + frac;
    forall i | 0 <= i < |s| ensures IsDigit(s[i]) || s[i] == '.' {
      if i < |whole| { assert s[i] == whole[i]; } else if i > |whole| { assert s[i] == frac[i - |whole| - 1]; }
    }
  }

  lemma PointValue(whole: string, frac: string)
    requires AllDigits(whole) && AllDigits(frac) && |whole + "." + frac| <= MAX_LENGTH
    ensures var s := whole + "." + frac;
            IsFloat(s) && FloatValue(s) == Number(whole) as real + Number(frac) as real / Pow10(|frac|) as real
  {
    hide IsFloat, AllDigits, DotIndex, Pow10;
    var s := whole + "." + frac;
    PointIsFloat(whole, frac);
    DotIndexOf(whole, frac);
    assert s[..|whole|] == whole && s[|whole| + 1..] == frac;
  }

  lemma FixedRoundTrip(f: Fixed)
    requires FitsFixed(f)
    ensures IsFloat(PrintFixed(f)) && FloatValue(PrintFixed(f)) == FixedValue(f)
  {
    NumberRoundTrip(Whole(f));
    FixedParts(f);
    if f.places == 0 {
      assert PrintFixed(f) == ToString(Whole(f));
      WholeValue(ToString(Whole(f)));
    } else {
      PaddedNumber(Part(f), f.places);
      assert PrintFixed(f) == ToString(Whole(f)) + "." + Padded(Part(f), f.places);
      PointValue(ToString(Whole(f)), Padded(Part(f), f.places));
    }
  }

  lemma IntegerRoundTrip(n: nat)
    ensures IsInteger(ToString(n)) <==> n < Pow10(MAX_LENGTH)
    ensures AllDigits(ToString(n)) && Number(ToString(n)) == n
    ensures n > 0 ==> IsNotNull(ToString(n))
  {
    NumberRoundTrip(n);
    ToStringLength(n, MAX_LENGTH);
    FirstDigit(n);
    assert IsDigit(ToString(n)[0]);
  }

  lemma PrintedOption(p: Printed)
    requires Fits(p)
    ensures ParseFilters(Print(p)) == Ok([Meaning(p)])
  {
    assert Pow10(9) == 1_000_000_000;
    match p {
      case PCrop(w, h) => IntegerRoundTrip(w); IntegerRoundTrip(h);
      case PEdge(t) => FixedRoundTrip(t);
      case PBlur(s) => FixedRoundTrip(s);
      case PTunnel(h, w, s, r) => IntegerRoundTrip(h); IntegerRoundTrip(w); FixedRoundTrip(s); FixedRoundTrip(r);
      case _ =>
    }
    assert ParseOption(Print(p)) == Ok(Taken([Meaning(p)], |Print(p)|));
    assert Print(p)[|Print(p)|..] == [];
    assert [Meaning(p)] + [] == [Meaning(p)];
  }

  /** Parsing what was printed gives the filters back. */
  lemma {:induction false} PrintParse(ps: seq<Printed>)
    requires forall p | p in ps :: Fits(p)
    ensures ParseFilters(PrintAll(ps)) == Ok(Meanings(ps))
    decreases |ps|
  {
    if ps != [] {
      PrintedOption(ps[0]);
      PrintParse(ps[1..]);
      ParseConcat(Print(ps[0]), PrintAll(ps[1..]));
    }
  }

  /** An unknown option between two accepted lists is ignored. */
  lemma UnknownOptionIgnored(a: seq<string>, option: string, b: seq<string>)
    requires ParseFilters(a).Ok? && option != "" && option[0] == '-'
    requires option !in {"-crop", "-gs", "-neg", "-sharp", "-edge", "-blur", "-tunnel"}
    ensures ParseFilters(a + [option] + b) == ParseFilters(a + b)
  {
    assert [option][1..] == [];
    assert ParseOption([option]) == Ok(Taken([], 1));
    AfterNothing(ParseFilters([]));
    AfterNothing(ParseFilters(b));
    ParseConcat([option], b);
    ParseConcat(a, [option] + b);
    ParseConcat(a, b);
    assert a + [option] + b == a + ([option] + b);
  }

  lemma RefusedAfter(a: seq<string>, rest: seq<string>)
    requires ParseFilters(a).Ok? && ParseFilters(rest) == Thrown
    ensures ParseFilters(a + rest) == Thrown
  {
    ParseConcat(a, rest);
  }

  /** An argument where an option is expected has to begin with a dash. */
  lemma NoDashRefused(a: seq<string>, s: string, b: seq<string>)
    requires ParseFilters(a).Ok? && (s == "" || s[0] != '-')
    ensures ParseFilters(a + [s] + b) == Thrown
  {
    assert a + [s] + b == a + ([s] + b);
    RefusedAfter(a, [s] + b);
  }

  /** How many arguments an option takes. */
  function Arity(option: string): nat {
    if option == "-tunnel" then 4 else if option == "-crop" then 2 else if option == "-edge" || option == "-blur" then 1 else 0
  }

  /** An option with too few arguments left is refused. */
  lemma MissingArguments(a: seq<string>, option: string, b: seq<string>)
    requires ParseFilters(a).Ok? && |b| < Arity(option)
    ensures ParseFilters(a + [option] + b) == Thrown
  {
    assert a + [option] + b == a + ([option] + b);
    RefusedAfter(a, [option] + b);
  }

  /** The arguments that are refused: a crop that is not a positive whole number of at most nine digits ... */
  lemma BadCropRefused(a: seq<string>, w: string, h: string, b: seq<string>)
    requires ParseFilters(a).Ok?
    requires !IsInteger(w) || !IsInteger(h) || Number(w) == 0 || Number(h) == 0
    ensures ParseFilters(a + ["-crop", w, h] + b) == Thrown
  {
    if IsInteger(w) { ZeroIsNull(w); }
    if IsInteger(h) { ZeroIsNull(h); }
    assert a + ["-crop", w, h] + b == a + (["-crop", w, h] + b);
    RefusedAfter(a, ["-crop", w, h] + b);
  }

  lemma {:induction false} ZeroIsNull(s: string)
    requires AllDigits(s)
    ensures Number(s) == 0 <==> !IsNotNull(s)
  {
    if s != "" {
      var init := s[..|s| - 1];
      ZeroIsNull(init);
      assert IsDigit(s[|s| - 1]);
      if IsNotNull(init) {
        var i :| 0 <= i < |init| && init[i] != '.' && init[i] != '0';
        assert s[i] == init[i];
      }
    }
  }

  /** ... and a crop above 32767 wraps around as a number of sixteen bits. */
  lemma CropIs(w: string, h: string)
    requires IsInteger(w) && IsInteger(h) && Number(w) > 0 && Number(h) > 0
    ensures ParseFilters(["-crop", w, h]) == Ok([Crop(Int16(Number(w)), Int16(Number(h)))])
  {
    ZeroIsNull(w);
    ZeroIsNull(h);
    var args := ["-crop", w, h];
    var f := Crop(Int16(Number(w)), Int16(Number(h)));
    assert ParseOption(args) == Ok(Taken([f], 3));
    assert args[3..] == [] && [f] + [] == [f];
  }

  lemma {:induction false} NumberBelow(s: string)
    requires AllDigits(s)
    ensures Number(s) < Pow10(|s|)
  {
    if s != "" {
      NumberBelow(s[..|s| - 1]);
      assert IsDigit(s[|s| - 1]);
    }
  }

  /** What is accepted as a whole number has at most nine digits, and is below a thousand million. */
  lemma NineDigits(s: string)
    ensures IsInteger(s) <==> |s| <= 9 && forall i | 0 <= i < |s| :: '0' <= s[i] <= '9'
    ensures IsInteger(s) ==> Number(s) < 1_000_000_000
  {
    if IsInteger(s) {
      NumberBelow(s);
      Pow10Monotone(|s|, 9);
      assert Pow10(9) == 1_000_000_000;
    }
  }

  /** Help for no arguments at all; a run exactly for two paths, the first of a file that exists, and accepted options. */
  lemma CommandIff(argv: seq<string>, exists': bool, isFile: bool)
    ensures var c := ParseCommand(argv, exists', isFile);
            && (c.Help? <==> |argv| == 1)
            && (c.Run? <==> |argv| >= 3 && exists' && isFile && ParseFilters(argv[3..]).Ok?)
            && (c.Run? ==> c == Run(argv[1], argv[2], ParseFilters(argv[3..]).value))
  {
    hide ParseFilters;
  }
}
