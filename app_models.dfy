/** The app-side option records and enumerations: the resize request with
    its validation, the output-format table and the algorithm list. */
module AppModels {
  import opened Common
  import opened Text
  import opened Engine

  const MAX_DIMENSION: nat := 9999

  /** The range every requested dimension must lie in */
  predicate InDimensionRange(n: int) {
    1 <= n <= MAX_DIMENSION
  }

  // ----------------------------------------------------------- image info

  /** `AppImageInfo.dimensionsString`: "<width> × <height>". Read back, the
      digits up to the first non-digit give the width, and the digits after
      the " × " separator give the height. */
  function DimensionsString(info: ImageInfo): (r: string)
    ensures var k := LeadingDigits(r);
      && k + 3 <= |r| && r[k..k + 3] == " × "
      && AllDigits(r[..k]) && ValueOf(r[..k]) == info.width
      && AllDigits(r[k + 3..]) && ValueOf(r[k + 3..]) == info.height
      && r[..k] == NatToString(info.width) && r[k + 3..] == NatToString(info.height)
  {
    var w := NatToString(info.width);
    var tail := " × " + NatToString(info.height);
    NumeralEndsAtFirstNonDigit(w, tail);
    var r := w + tail;
    assert r[..|w|] == w && r[|w|..|w| + 3] == " × " && r[|w| + 3..] == NatToString(info.height);
    r
  }

  /** The number of digits at the start of `s` */
  function LeadingDigits(s: string): nat {
    if s != [] && IsDigit(s[0]) then 1 + LeadingDigits(s[1..]) else 0
  }

  /** A numeral followed by text that starts with a non-digit is exactly
      the leading digits of the whole. */
  lemma {:induction false} NumeralEndsAtFirstNonDigit(x: string, y: string)
    requires AllDigits(x) && y != [] && !IsDigit(y[0])
    ensures LeadingDigits(x + y) == |x|
  {
    if x != [] {
      assert (x + y)[1..] == x[1..] + y;
      NumeralEndsAtFirstNonDigit(x[1..], y);
    }
  }

  /** The dimensions label determines both dimensions. */
  lemma DimensionsStringInjective(a: ImageInfo, b: ImageInfo)
    requires DimensionsString(a) == DimensionsString(b)
    ensures a.width == b.width && a.height == b.height
  {
    var tailA := " × " + NatToString(a.height);
    var tailB := " × " + NatToString(b.height);
    assert DimensionsString(a) == NatToString(a.width) + tailA;
    assert DimensionsString(b) == NatToString(b.width) + tailB;
    NumeralEndsAtFirstNonDigit(NatToString(a.width), tailA);
    NumeralEndsAtFirstNonDigit(NatToString(b.width), tailB);
    assert NatToString(a.width) == DimensionsString(a)[..|NatToString(a.width)|];
    assert NatToString(b.width) == DimensionsString(b)[..|NatToString(b.width)|];
    assert tailA == DimensionsString(a)[|NatToString(a.width)|..];
    assert tailB == DimensionsString(b)[|NatToString(b.width)|..];
    assert NatToString(a.height) == tailA[3..];
    assert NatToString(b.height) == tailB[3..];
    NatToStringInjective(a.width, b.width);
    NatToStringInjective(a.height, b.height);
  }

  // ----------------------------------------------------------- algorithms

  /** `ResizeAlgorithm.allCases`: every algorithm once, in menu order */
  function AllCases(): (r: seq<ResizeAlgorithm>)
    ensures |r| == 3 && r[0] == Nearest && r[1] == Bilinear && r[2] == Lanczos3
  {
    [Nearest, Bilinear, Lanczos3]
  }

  // ------------------------------------------------------- output format

  datatype OutputFormat = SameAsInput | Png | Jpeg | Webp

  /** `OutputFormat.toUniFFIOutputFormat`: the engine's format name, with no
      name meaning "same as the input" */
  function ToUniFFIOutputFormat(f: OutputFormat): (r: Option<string>)
    ensures r.None? <==> f == SameAsInput
    ensures r.Some? ==> r.value in {"png", "jpeg", "webp"}
  {
    match f
    case SameAsInput => None
    case Png => Some("png")
    case Jpeg => Some("jpeg")
    case Webp => Some("webp")
  }

  /** No two formats share an engine name. */
  lemma ToUniFFIOutputFormatInjective(f: OutputFormat, g: OutputFormat)
    requires ToUniFFIOutputFormat(f) == ToUniFFIOutputFormat(g)
    ensures f == g
  {
  }

  // --------------------------------------------------------- resize options

  datatype AppResizeOptions = AppResizeOptions(
    width: UInt32,
    height: Option<UInt32>,
    algorithm: ResizeAlgorithm,
    outputFormat: OutputFormat)

  /** The option values a fresh `AppResizeOptions()` holds */
  const DEFAULT_RESIZE_OPTIONS: AppResizeOptions := AppResizeOptions(1024, None, Lanczos3, SameAsInput)

  const WIDTH_RANGE_MESSAGE: string := "Width must be between 1 and 9999"
  const HEIGHT_RANGE_MESSAGE: string := "Height must be between 1 and 9999"

  /** `AppResizeOptions.validate()`: the width is checked first, then the
      height when one is given. */
  function Validate(o: AppResizeOptions): (r: Outcome<ImageError>)
    ensures r.Pass? <==> InDimensionRange(o.width) && (o.height.Some? ==> InDimensionRange(o.height.value))
    ensures !InDimensionRange(o.width) ==> r == Fail(InvalidDimensions(WIDTH_RANGE_MESSAGE))
    ensures InDimensionRange(o.width) && r.Fail? ==> r == Fail(InvalidDimensions(HEIGHT_RANGE_MESSAGE))
  {
    if o.width == 0 || o.width >= 10_000 then
      Fail(InvalidDimensions(WIDTH_RANGE_MESSAGE))
    else if o.height.Some? && (o.height.value == 0 || o.height.value >= 10_000) then
      Fail(InvalidDimensions(HEIGHT_RANGE_MESSAGE))
    else
      Pass
  }

  /** The boundary values of the width check, and a missing height */
  lemma ValidateBoundaries(alg: ResizeAlgorithm, f: OutputFormat)
    ensures Validate(AppResizeOptions(9999, None, alg, f)).Pass?
    ensures Validate(AppResizeOptions(1, None, alg, f)).Pass?
    ensures Validate(AppResizeOptions(10000, None, alg, f)) == Fail(InvalidDimensions(WIDTH_RANGE_MESSAGE))
    ensures Validate(AppResizeOptions(0, Some(0), alg, f)) == Fail(InvalidDimensions(WIDTH_RANGE_MESSAGE))
    ensures Validate(AppResizeOptions(500, Some(10000), alg, f)) == Fail(InvalidDimensions(HEIGHT_RANGE_MESSAGE))
    ensures Validate(DEFAULT_RESIZE_OPTIONS).Pass?
  {
  }

  /** `AppResizeOptions.toResizeOptions()`: the validated engine request */
  function ToResizeOptions(o: AppResizeOptions): (r: Result<ResizeOptions, ImageError>)
    ensures r.Err? <==> Validate(o).Fail?
    ensures r.Err? ==> r.error == Validate(o).error
    ensures r.Ok? ==> InDimensionRange(r.value.width)
    ensures r.Ok? && r.value.height.Some? ==> InDimensionRange(r.value.height.value)
    ensures r.Ok? ==> r.value.width == o.width && r.value.height == o.height && r.value.algorithm == o.algorithm
    ensures r.Ok? ==> r.value.outputFormat == ToUniFFIOutputFormat(o.outputFormat)
  {
    match Validate(o)
    case Fail(e) => Err(e)
    case Pass => Ok(ResizeOptions(o.width, o.height, o.algorithm, ToUniFFIOutputFormat(o.outputFormat)))
  }
}
