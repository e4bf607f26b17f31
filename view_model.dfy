/** The resize screen's view model: the width and height text fields with
    their aspect-ratio link, the image and output selection, and the
    validation that gates a resize request. The engine calls it makes are
    parameters whose results are arbitrary. */
module ViewModel {
  import opened Common
  import opened Text
  import opened Engine
  import opened AppModels
  import opened FileHelpers

  // ------------------------------------------------------------ text fields

  /** `Character.isNumber`, restricted to the ASCII digits */
  predicate IsNumber(c: char) {
    IsDigit(c)
  }

  /** `sanitizeNumeric(_:)`: the numeric characters of `input`, in order */
  function SanitizeNumeric(input: string): (r: string)
    ensures AllDigits(r) && |r| <= |input|
    ensures AllDigits(input) ==> r == input
  {
    if input == [] then []
    else (if IsNumber(input[0]) then [input[0]] else []) + SanitizeNumeric(input[1..])
  }

  /** Sanitising twice is sanitising once. */
  lemma SanitizeIdempotent(input: string)
    ensures SanitizeNumeric(SanitizeNumeric(input)) == SanitizeNumeric(input)
  {
  }

  /** Sanitising works piece by piece: it keeps the order of what it keeps. */
  lemma {:induction false} SanitizeDistributes(a: string, b: string)
    ensures SanitizeNumeric(a + b) == SanitizeNumeric(a) + SanitizeNumeric(b)
  {
    if a == [] {
      assert a + b == b;
    } else {
      var kept := if IsNumber(a[0]) then [a[0]] else [];
      assert (a + b)[0] == a[0];
      assert (a + b)[1..] == a[1..] + b;
      SanitizeDistributes(a[1..], b);
      calc {
        SanitizeNumeric(a + b);
        kept + SanitizeNumeric(a[1..] + b);
        kept + (SanitizeNumeric(a[1..]) + SanitizeNumeric(b));
        (kept + SanitizeNumeric(a[1..])) + SanitizeNumeric(b);
        SanitizeNumeric(a) + SanitizeNumeric(b);
      }
    }
  }

  /** Sanitising keeps every numeric character as often as it occurs, and
      no other character. */
  lemma {:induction false} SanitizeCounts(input: string, c: char)
    ensures multiset(SanitizeNumeric(input))[c] == if IsNumber(c) then multiset(input)[c] else 0
  {
    if input != [] {
      SanitizeCounts(input[1..], c);
      assert input == [input[0]] + input[1..];
    }
  }

  /** `parseUInt32(_:)`, that is `UInt32(text.trimmingCharacters(in:
      .whitespacesAndNewlines))`: after trimming, an optional '+' or '-'
      and then one or more digits whose value fits in 32 bits; a '-' is
      accepted only in front of a zero value. */
  function ParseUInt32(text: string): (r: Option<UInt32>)
    ensures r.Some? ==> Trim(text) != [] && (Trim(text)[0] == '-' ==> r.value == 0)
  {
    var t := Trim(text);
    if t == [] then None
    else
      var negative := t[0] == '-';
      var digits := if t[0] == '+' || t[0] == '-' then t[1..] else t;
      if digits == [] || !AllDigits(digits) then None
      else if negative then (if ValueOf(digits) == 0 then Some(0) else None)
      else if ValueOf(digits) <= UINT32_MAX then Some(ValueOf(digits))
      else None
  }

  /** Blank text parses to nothing. */
  lemma ParseBlank(text: string)
    requires AllWhitespace(text)
    ensures ParseUInt32(text).None?
  {
    TrimEnds(text);
  }

  /** Text that trims to digits parses to their value, or to nothing when
      it is too large for 32 bits; the whitespace around it is ignored. */
  lemma ParseTrimmedDigits(text: string)
    requires var t := Trim(text); t != [] && AllDigits(t)
    ensures var t := Trim(text);
      ParseUInt32(text) == if ValueOf(t) <= UINT32_MAX then Some(ValueOf(t)) else None
  {
  }

  /** Text that trims to something other than an optionally signed,
      non-empty digit string (such as "12a", "+" or "--1") parses to
      nothing. */
  lemma ParseRejectsNonNumeral(text: string)
    requires Trim(text) != []
    requires var t := Trim(text);
      var d := if t[0] == '+' || t[0] == '-' then t[1..] else t;
      d == [] || !AllDigits(d)
    ensures ParseUInt32(text).None?
  {
  }

  /** A sign in front of digits, with any whitespace around the whole: '+'
      is ignored, and '-' is accepted in front of a zero value only. */
  lemma ParseSigned(text: string, s: string)
    requires s != [] && AllDigits(s)
    ensures Trim(text) == "+" + s ==> ParseUInt32(text) == ParseUInt32(s)
    ensures Trim(text) == "-" + s ==> ParseUInt32(text) == if ValueOf(s) == 0 then Some(0) else None
  {
    ParseDigits(s);
    assert ("+" + s)[1..] == s;
    assert ("-" + s)[1..] == s;
  }

  /** A digit string (with no surrounding whitespace) parses to its value,
      or to nothing when it is empty or too large for 32 bits. */
  lemma ParseDigits(s: string)
    requires AllDigits(s)
    ensures ParseUInt32(s) == if s != [] && ValueOf(s) <= UINT32_MAX then Some(ValueOf(s)) else None
  {
    TrimKeepsTrimmed(s);
  }

  /** Printing a 32-bit value and parsing it back gives the value. */
  lemma ParseDecimalRoundTrip(n: UInt32)
    ensures ParseUInt32(NatToString(n)) == Some(n)
  {
    ParseDigits(NatToString(n));
  }

  /** Leading zeros do not change what a digit string parses to. */
  lemma ParseIgnoresLeadingZero(s: string)
    requires AllDigits(s) && s != []
    ensures ParseUInt32("0" + s) == ParseUInt32(s)
  {
    LeadingZeroIgnored(s);
    ParseDigits(s);
    ParseDigits("0" + s);
  }

  // ------------------------------------------------------------ aspect link

  /** `Int((Double(v) * ratio).rounded())` for `ratio = num / den`, in exact
      arithmetic: the integer nearest to v·num/den, halves rounded up. */
  function RoundedScale(v: nat, num: nat, den: nat): nat
    requires den > 0
  {
    (2 * v * num + den) / (2 * den)
  }

  /** `RoundedScale` is the integer nearest to v·num/den: twice the distance
      from v·num/den is below 1, or exactly 1 with the half rounded up. */
  lemma RoundedScaleNearest(v: nat, num: nat, den: nat)
    requires den > 0
    ensures var r := RoundedScale(v, num, den);
      2 * den * r <= 2 * v * num + den < 2 * den * r + 2 * den
  {
    var a := 2 * v * num + den;
    var b := 2 * den;
    assert a == b * (a / b) + a % b;
  }

  /** `UInt32(min(max(1, n), 9999))` */
  function ClampDimension(n: int): (r: UInt32)
    ensures InDimensionRange(r)
    ensures InDimensionRange(n) ==> r == n
    ensures n < 1 ==> r == 1
    ensures n > MAX_DIMENSION ==> r == MAX_DIMENSION
  {
    var atLeastOne := if n < 1 then 1 else n;
    if atLeastOne < MAX_DIMENSION then atLeastOne else MAX_DIMENSION
  }

  /** The dimension linked to `v` under the aspect lock, for an original
      image whose other side over this side is `num / den` */
  function LinkedDimension(v: nat, num: nat, den: nat): (r: UInt32)
    requires den > 0
    ensures InDimensionRange(r)
  {
    ClampDimension(RoundedScale(v, num, den))
  }

  /** A 4000×3000 image with width 1024 gets height 768. */
  lemma LinkedDimensionExample()
    ensures LinkedDimension(1024, 3000, 4000) == 768
  {
    assert 2 * 1024 * 3000 + 4000 == 6_148_000;
  }

  /** Linking the original width gives back the original height (kept in
      1..9999). */
  lemma LinkedDimensionOfOriginal(width: nat, height: nat)
    requires width > 0
    ensures LinkedDimension(width, height, width) == ClampDimension(height)
  {
    DivisionUnique(2 * width * height + width, 2 * width, height);
  }

  /** The quotient is the q with b·q <= a < b·q + b. */
  lemma DivisionUnique(a: int, b: int, q: int)
    requires b > 0 && b * q <= a < b * q + b
    ensures a / b == q
  {
    var r := a / b;
    assert b * r <= a < b * r + b;
    assert -b < b * r - b * q < b;
    assert b * r - b * q == b * (r - q);
    SmallMultiple(b, r - q, b);
  }

  /** Linking width to height and back moves the width by at most
      (W + H) / (2H) before clamping: so by at most 1 when the image is less
      than three times as wide as it is tall, and possibly by more for wider
      images. */
  lemma LinkRoundTripBound(w: nat, origW: nat, origH: nat)
    requires origW > 0 && origH > 0
    ensures var h := RoundedScale(w, origH, origW);
      var w' := RoundedScale(h, origW, origH);
      -(origW + origH) < 2 * origH * (w' - w) <= origW + origH
  {
    var h := RoundedScale(w, origH, origW);
    var w' := RoundedScale(h, origW, origH);
    RoundedScaleNearest(w, origH, origW);
    RoundedScaleNearest(h, origW, origH);
    assert 2 * origW * h <= 2 * w * origH + origW < 2 * origW * h + 2 * origW;
    assert 2 * origH * w' <= 2 * h * origW + origH < 2 * origH * w' + 2 * origH;
    assert origW * h == h * origW;
    assert origH * (w' - w) == origH * w' - w * origH;
  }

  /** For an image less than three times as wide as it is tall, the round
      trip moves the width by at most one. */
  lemma LinkRoundTripNarrow(w: nat, origW: nat, origH: nat)
    requires 0 < origW < 3 * origH
    ensures var w' := RoundedScale(RoundedScale(w, origH, origW), origW, origH);
      -1 <= w' - w <= 1
  {
    LinkRoundTripBound(w, origW, origH);
    var w' := RoundedScale(RoundedScale(w, origH, origW), origW, origH);
    assert 2 * origH * (w' - w) == (2 * origH) * (w' - w);
    SmallMultiple(2 * origH, w' - w, origW + origH);
  }

  /** An integer d with -b < k·d <= b and b < 2k lies in -1..1. */
  lemma SmallMultiple(k: int, d: int, b: int)
    requires 0 < k && b < 2 * k && -b < k * d <= b
    ensures -1 <= d <= 1
  {
    if d > 1 {
      MultiplyAtLeast(k, d, 2);
    }
  }

  /** Multiplying by a positive factor keeps a lower bound. */
  lemma {:induction false} MultiplyAtLeast(k: int, d: int, m: nat)
    requires 0 < k && m <= d
    ensures k * m <= k * d
  {
    if m < d {
      MultiplyAtLeast(k, d - 1, m);
      assert k * (d - 1) == k * d - k;
    }
  }

  /** Wider images drift further. For a 7×2 image (ratio 3.5), width 2 links
      to height 1, which links back to width 4. For a 4000×100 image, width
      30 links to height 1, which links back to width 40. */
  lemma LinkRoundTripDrift()
    ensures LinkedDimension(2, 2, 7) == 1 && LinkedDimension(1, 7, 2) == 4
    ensures LinkedDimension(30, 100, 4000) == 1
    ensures LinkedDimension(1, 4000, 100) == 40
  {
  }

  // ------------------------------------------------------------ errors

  /** What a throwing engine call can raise: an engine error, or any other
      error, known only by its localized description */
  datatype ThrownError = Image(error: ImageError) | Foreign(localizedDescription: string)

  /** `userMessage(for:)`: an engine error as a sentence prefixed by its
      kind; any other error by its description */
  function UserMessage(e: ThrownError): (r: string)
    ensures e.Foreign? ==> r == e.localizedDescription
  {
    match e
    case Image(IoError(message)) => "File error: " + message
    case Image(UnsupportedFormat(format)) => "Unsupported format: " + format
    case Image(InvalidDimensions(message)) => "Invalid dimensions: " + message
    case Image(ProcessingError(message)) => "Processing error: " + message
    case Foreign(description) => description
  }

  /** The message of an engine error identifies its kind and its text. */
  lemma UserMessageIdentifiesError(a: ImageError, b: ImageError)
    requires UserMessage(Image(a)) == UserMessage(Image(b))
    ensures a == b
  {
    var m := UserMessage(Image(a));
    assert a.IoError? <==> m[0] == 'F';
    assert a.UnsupportedFormat? <==> m[0] == 'U';
    assert a.InvalidDimensions? <==> m[0] == 'I';
    assert b.IoError? <==> m[0] == 'F';
    assert b.UnsupportedFormat? <==> m[0] == 'U';
    assert b.InvalidDimensions? <==> m[0] == 'I';
    match a
    case IoError(x) => assert x == m[12..] == b.message;
    case UnsupportedFormat(x) => assert x == m[20..] == b.format;
    case InvalidDimensions(x) => assert x == m[20..] == b.message;
    case ProcessingError(x) => assert x == m[18..] == b.message;
  }

  // ------------------------------------------------------------ view model

  const SELECT_IMAGE_MESSAGE: string := "Please select an image"
  const CHOOSE_OUTPUT_MESSAGE: string := "Please choose an output location"
  const INVALID_WIDTH_MESSAGE: string := "Invalid width"
  const INVALID_HEIGHT_MESSAGE: string := "Invalid height"

  /** The text parses to a value in 1..9999 */
  predicate ParsesInRange(text: string) {
    var v := ParseUInt32(text);
    v.Some? && InDimensionRange(v.value)
  }

  class ImageResizerViewModel {
    var selectedImageURL: Option<FileURL>
    var originalImageInfo: Option<ImageInfo>

    var targetWidth: string
    var targetHeight: string
    var lockAspectRatio: bool

    var selectedAlgorithm: ResizeAlgorithm
    var selectedFormat: OutputFormat

    var outputURL: Option<FileURL>

    var isProcessing: bool
    var resultInfo: Option<ImageInfo>
    var errorMessage: Option<string>
    var supportedFormats: seq<string>

    /** Between user actions the text fields hold only digits, and no engine
        call is in flight. */
    ghost predicate Valid()
      reads this`targetWidth, this`targetHeight, this`isProcessing
    {
      AllDigits(targetWidth) && AllDigits(targetHeight) && !isProcessing
    }

    /** `init()`: output to the Desktop folder of `home`, with the engine's
        supported formats */
    constructor (home: FileURL, engineFormats: seq<string>)
      ensures Valid()
      ensures selectedImageURL.None? && originalImageInfo.None?
      ensures targetWidth == "" && targetHeight == "" && lockAspectRatio
      ensures selectedAlgorithm == Lanczos3 && selectedFormat == SameAsInput
      ensures outputURL == Some(AppendingPathComponent(home, "Desktop"))
      ensures !isProcessing && resultInfo.None? && errorMessage.None?
      ensures supportedFormats == engineFormats
    {
      selectedImageURL := None;
      originalImageInfo := None;
      targetWidth := "";
      targetHeight := "";
      lockAspectRatio := true;
      selectedAlgorithm := Lanczos3;
      selectedFormat := SameAsInput;
      isProcessing := false;
      resultInfo := None;
      errorMessage := None;
      outputURL := Some(AppendingPathComponent(home, "Desktop"));
      supportedFormats := engineFormats;
    }

    /** `canResize` */
    predicate CanResize()
      reads this`selectedImageURL, this`outputURL, this`targetWidth, this`targetHeight, this`lockAspectRatio
      ensures CanResize() <==> selectedImageURL.Some? && outputURL.Some? && ParsesInRange(targetWidth)
                               && (lockAspectRatio || ParsesInRange(targetHeight))
    {
      if selectedImageURL.None? then false
      else if outputURL.None? then false
      else if !ParsesInRange(targetWidth) then false
      else if lockAspectRatio then true
      else ParsesInRange(targetHeight)
    }

    /** The message of the first guard of `resizeImage` that fails, in the
        order image, output, width, height (the height only when unlocked) */
    function ResizeGuardFailure(): (r: Option<string>)
      reads this`selectedImageURL, this`outputURL, this`targetWidth, this`targetHeight, this`lockAspectRatio
      ensures r.None? <==> CanResize()
      ensures selectedImageURL.None? ==> r == Some(SELECT_IMAGE_MESSAGE)
      ensures selectedImageURL.Some? && outputURL.None? ==> r == Some(CHOOSE_OUTPUT_MESSAGE)
      ensures selectedImageURL.Some? && outputURL.Some? && !ParsesInRange(targetWidth) ==>
                r == Some(INVALID_WIDTH_MESSAGE)
      ensures r == Some(INVALID_HEIGHT_MESSAGE) <==>
                (selectedImageURL.Some? && outputURL.Some? && ParsesInRange(targetWidth)
                 && !lockAspectRatio && !ParsesInRange(targetHeight))
    {
      if selectedImageURL.None? then Some(SELECT_IMAGE_MESSAGE)
      else if outputURL.None? then Some(CHOOSE_OUTPUT_MESSAGE)
      else
        var width := ParseUInt32(targetWidth);
        if width.None? || !(1 <= width.value <= 9999) then Some(INVALID_WIDTH_MESSAGE)
        else if lockAspectRatio then None
        else
          var height := ParseUInt32(targetHeight);
          if height.None? || !(1 <= height.value <= 9999) then Some(INVALID_HEIGHT_MESSAGE)
          else None
    }

    /** The request `resizeImage` sends once its guards pass: no height when
        the aspect ratio is locked. It always passes `validate()`. */
    function ResizeRequest(): (r: ResizeOptions)
      reads this`selectedImageURL, this`outputURL, this`targetWidth, this`targetHeight, this`lockAspectRatio, this`selectedAlgorithm, this`selectedFormat
      requires CanResize()
      ensures InDimensionRange(r.width)
      ensures r.width == ParseUInt32(targetWidth).value
      ensures r.height.None? <==> lockAspectRatio
      ensures !lockAspectRatio ==> r.height == ParseUInt32(targetHeight)
      ensures Validate(AppResizeOptions(r.width, r.height, selectedAlgorithm, selectedFormat)).Pass?
      ensures ToResizeOptions(AppResizeOptions(r.width, r.height, selectedAlgorithm, selectedFormat)) == Ok(r)
    {
      ResizeOptions(
        ParseUInt32(targetWidth).value,
        if lockAspectRatio then None else Some(ParseUInt32(targetHeight).value),
        selectedAlgorithm,
        ToUniFFIOutputFormat(selectedFormat))
    }

    /** `calculatedHeight`: the height linked to the width text, when the lock
        is on, the original size is known with a non-zero width, and the
        width text parses */
    function CalculatedHeight(): (r: Option<UInt32>)
      reads this`lockAspectRatio, this`originalImageInfo, this`targetWidth
      ensures r.Some? <==> lockAspectRatio && originalImageInfo.Some? && originalImageInfo.value.width > 0
                           && ParseUInt32(targetWidth).Some?
      ensures r.Some? ==> InDimensionRange(r.value)
      ensures r.Some? ==> r.value == LinkedDimension(ParseUInt32(targetWidth).value,
                                                     originalImageInfo.value.height, originalImageInfo.value.width)
    {
      if !lockAspectRatio then None
      else if originalImageInfo.None? then None
      else
        var original := originalImageInfo.value;
        if original.width == 0 then None
        else
          var width := ParseUInt32(targetWidth);
          if width.None? then None
          else Some(LinkedDimension(width.value, original.height, original.width))
    }

    /** `selectImage(_:)`, without the image-info load it starts: the text
        fields, the lock and the chosen algorithm and format are kept */
    method SelectImage(url: FileURL)
      modifies this`selectedImageURL, this`errorMessage, this`resultInfo, this`originalImageInfo, this`outputURL
      ensures selectedImageURL == Some(url)
      ensures errorMessage.None? && resultInfo.None? && originalImageInfo.None?
      ensures outputURL == Some(GenerateOutputPath(url, Some(selectedFormat), Resize))
    {
      selectedImageURL := Some(url);
      errorMessage := None;
      resultInfo := None;
      originalImageInfo := None;
      outputURL := Some(GenerateResizeOutputPath(url, Some(selectedFormat)));
    }

    /** `loadImageInfo(_:)`, with the engine's probe as `probe`: on success
        the text fields show the image's size, which parses back to it */
    method LoadImageInfo(url: FileURL, probe: string -> Result<ImageInfo, ThrownError>)
      requires Valid()
      modifies this`errorMessage, this`originalImageInfo, this`targetWidth, this`targetHeight
      ensures Valid()
      ensures probe(url.path).Ok? ==>
        var info := probe(url.path).value;
        && errorMessage.None?
        && originalImageInfo == Some(info)
        && targetWidth == NatToString(info.width) && targetHeight == NatToString(info.height)
        && ParseUInt32(targetWidth) == Some(info.width) && ParseUInt32(targetHeight) == Some(info.height)
      ensures probe(url.path).Err? ==>
        && errorMessage == Some(UserMessage(probe(url.path).error))
        && originalImageInfo == old(originalImageInfo)
        && targetWidth == old(targetWidth) && targetHeight == old(targetHeight)
    {
      errorMessage := None;
      match probe(url.path) {
        case Ok(info) =>
          originalImageInfo := Some(info);
          targetWidth := NatToString(info.width);
          targetHeight := NatToString(info.height);
          ParseDecimalRoundTrip(info.width);
          ParseDecimalRoundTrip(info.height);
        case Err(e) =>
          errorMessage := Some(UserMessage(e));
      }
    }

    /** `updateWidth(_:)`: store the sanitised width; under the lock, also
        replace the height by the linked height when there is one */
    method UpdateWidth(newWidth: string)
      requires Valid()
      modifies this`targetWidth, this`targetHeight
      ensures Valid()
      ensures targetWidth == SanitizeNumeric(newWidth)
      ensures targetHeight == if CalculatedHeight().Some? then NatToString(CalculatedHeight().value) else old(targetHeight)
    {
      targetWidth := SanitizeNumeric(newWidth);
      if !lockAspectRatio {
        return;
      }
      RefreshHeight();
    }

    /** The step `updateWidth` and `toggleAspectRatio` share: show the
        calculated height, when there is one, in the height field */
    method RefreshHeight()
      requires Valid()
      modifies this`targetHeight
      ensures Valid()
      ensures targetHeight == if CalculatedHeight().Some? then NatToString(CalculatedHeight().value) else old(targetHeight)
    {
      var height := CalculatedHeight();
      if height.Some? {
        targetHeight := NatToString(height.value);
        assert CalculatedHeight() == height;
      }
    }

    /** `updateHeight(_:)`: store the sanitised height; under the lock, with a
        known non-zero original height and a parsable height, also replace
        the width by the linked width */
    method UpdateHeight(newHeight: string)
      requires Valid()
      modifies this`targetWidth, this`targetHeight
      ensures Valid()
      ensures targetHeight == SanitizeNumeric(newHeight)
      ensures var h := ParseUInt32(targetHeight);
        if lockAspectRatio && originalImageInfo.Some? && originalImageInfo.value.height > 0 && h.Some?
        then targetWidth == NatToString(LinkedDimension(h.value, originalImageInfo.value.width, originalImageInfo.value.height))
        else targetWidth == old(targetWidth)
    {
      targetHeight := SanitizeNumeric(newHeight);

      if !lockAspectRatio {
        return;
      }
      if originalImageInfo.None? {
        return;
      }
      var original := originalImageInfo.value;
      if original.height == 0 {
        return;
      }
      var height := ParseUInt32(targetHeight);
      if height.None? {
        return;
      }
      targetWidth := NatToString(LinkedDimension(height.value, original.width, original.height));
    }

    /** `toggleAspectRatio()`: flip the lock; turning it on refreshes the
        height from the width */
    method ToggleAspectRatio()
      requires Valid()
      modifies this`lockAspectRatio, this`targetHeight
      ensures Valid()
      ensures lockAspectRatio == !old(lockAspectRatio)
      ensures targetHeight == if CalculatedHeight().Some? then NatToString(CalculatedHeight().value) else old(targetHeight)
    {
      lockAspectRatio := !lockAspectRatio;
      if !lockAspectRatio {
        return;
      }
      RefreshHeight();
    }

    /** `resizeImage()`, with the engine's resize as `engine`. Returns the
        request handed to the engine, or nothing when a guard failed; the
        processing flag is down again afterwards either way. */
    method ResizeImage(engine: (string, string, ResizeOptions) -> Result<ImageInfo, ThrownError>)
      returns (sent: Option<ResizeOptions>)
      requires Valid()
      modifies this`errorMessage, this`isProcessing, this`resultInfo
      ensures Valid()
      ensures sent.Some? <==> CanResize()
      ensures sent.None? ==> errorMessage == ResizeGuardFailure() && resultInfo == old(resultInfo)
      ensures sent.Some? ==>
        && sent.value == ResizeRequest()
        && var outcome := engine(selectedImageURL.value.path, outputURL.value.path, sent.value);
        && (outcome.Ok? ==> resultInfo == Some(outcome.value) && errorMessage.None?)
        && (outcome.Err? ==> resultInfo == old(resultInfo) && errorMessage == Some(UserMessage(outcome.error)))
    {
      errorMessage := None;
      if selectedImageURL.None? {
        errorMessage := Some(SELECT_IMAGE_MESSAGE);
        assert !CanResize();
        return None;
      }
      var inputURL := selectedImageURL.value;
      if outputURL.None? {
        errorMessage := Some(CHOOSE_OUTPUT_MESSAGE);
        assert !CanResize();
        return None;
      }
      var output := outputURL.value;
      var width := ParseUInt32(targetWidth);
      if width.None? || !(1 <= width.value <= 9999) {
        errorMessage := Some(INVALID_WIDTH_MESSAGE);
        assert !CanResize();
        return None;
      }
      var height: Option<UInt32>;
      if lockAspectRatio {
        height := None;
      } else {
        var parsedHeight := ParseUInt32(targetHeight);
        if parsedHeight.None? || !(1 <= parsedHeight.value <= 9999) {
          errorMessage := Some(INVALID_HEIGHT_MESSAGE);
          assert !CanResize();
          return None;
        }
        height := parsedHeight;
      }

      isProcessing := true;

      var options := ResizeOptions(width.value, height, selectedAlgorithm, ToUniFFIOutputFormat(selectedFormat));
      sent := Some(options);

      match engine(inputURL.path, output.path, options) {
        case Ok(info) =>
          resultInfo := Some(info);
        case Err(e) =>
          errorMessage := Some(UserMessage(e));
      }

      // the deferred reset
      isProcessing := false;
      assert CanResize();  // every guard above passed
    }
  }
}
