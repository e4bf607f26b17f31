/** Path and file helpers: the output path next to the input, the
    image-extension check, the lower-cased extension, string-to-path
    conversion and the unit chosen for a file size. A file URL is its path
    string; its last component follows the last '/', and its extension
    follows the last '.' of that component. */
module FileHelpers {
  import opened Common
  import opened Text
  import opened AppModels

  datatype FileURL = FileURL(path: string)

  /** The two operations the app offers; output names differ by mode. */
  datatype OperationMode = Resize | Crop

  /** The position of the last occurrence of `c` among the first `n`
      characters of `s`, if any */
  function LastIndexBefore(s: string, c: char, n: nat): (r: Option<nat>)
    requires n <= |s|
    ensures r.Some? ==> r.value < n && s[r.value] == c && forall k | r.value < k < n :: s[k] != c
    ensures r.None? ==> forall k | 0 <= k < n :: s[k] != c
  {
    if n == 0 then None
    else if s[n - 1] == c then Some(n - 1)
    else LastIndexBefore(s, c, n - 1)
  }

  /** The position of the last occurrence of `c` in `s`, if any */
  function LastIndexOf(s: string, c: char): (r: Option<nat>)
    ensures r.Some? ==> r.value < |s| && s[r.value] == c && c !in s[r.value + 1..]
    ensures r.None? <==> c !in s
  {
    LastIndexBefore(s, c, |s|)
  }

  /** The last occurrence of `c` in `a + [c] + b` is the one between them
      when `b` does not contain `c`. */
  lemma LastIndexOfSeparator(a: string, c: char, b: string)
    requires c !in b
    ensures LastIndexOf(a + [c] + b, c) == Some(|a|)
  {
    var s := a + [c] + b;
    var r := LastIndexOf(s, c);
    assert s[|a|] == c;
  }

  /** `lastPathComponent` */
  function LastPathComponent(u: FileURL): (r: string)
    ensures '/' !in r
  {
    match LastIndexOf(u.path, '/')
    case None => u.path
    case Some(i) => u.path[i + 1..]
  }

  /** `deletingLastPathComponent()` */
  function DeletingLastPathComponent(u: FileURL): FileURL {
    match LastIndexOf(u.path, '/')
    case None => FileURL("")
    case Some(i) => FileURL(u.path[..i])
  }

  /** `appendingPathComponent(_:)` */
  function AppendingPathComponent(u: FileURL, name: string): FileURL {
    FileURL(u.path + "/" + name)
  }

  /** A name without '/' appended to a directory is the last component of
      the result, and removing it gives the directory back. */
  lemma {:induction false} AppendThenSplit(dir: FileURL, name: string)
    requires '/' !in name
    ensures LastPathComponent(AppendingPathComponent(dir, name)) == name
    ensures DeletingLastPathComponent(AppendingPathComponent(dir, name)) == dir
  {
    var p := AppendingPathComponent(dir, name).path;
    assert p == dir.path + ['/'] + name;
    LastIndexOfSeparator(dir.path, '/', name);
    assert p[..|dir.path|] == dir.path;
    assert p[|dir.path| + 1..] == name;
  }

  /** `pathExtension`: what follows the last '.' of the last component */
  function PathExtension(u: FileURL): (r: string)
    ensures '.' !in r && '/' !in r
  {
    var last := LastPathComponent(u);
    match LastIndexOf(last, '.')
    case None => ""
    case Some(i) =>
      assert forall k | i + 1 <= k < |last| :: last[k] in last;
      last[i + 1..]
  }

  /** `deletingPathExtension().lastPathComponent`: the last component up to
      its last '.' */
  function BaseName(u: FileURL): (r: string)
    ensures '/' !in r
  {
    var last := LastPathComponent(u);
    match LastIndexOf(last, '.')
    case None => last
    case Some(i) =>
      assert forall k | 0 <= k < i :: last[k] in last;
      last[..i]
  }

  /** The base name and the extension put back together give the last
      component. */
  lemma BaseNameAndExtension(u: FileURL)
    ensures '.' in LastPathComponent(u) ==> LastPathComponent(u) == BaseName(u) + "." + PathExtension(u)
    ensures '.' !in LastPathComponent(u) ==> LastPathComponent(u) == BaseName(u) && PathExtension(u) == ""
  {
    var last := LastPathComponent(u);
    if '.' in last {
      var i := LastIndexOf(last, '.').value;
      assert last == last[..i] + "." + last[i + 1..];
    }
  }

  /** The name suffix of each mode */
  function ModeSuffix(mode: OperationMode): string {
    if mode == Crop then "_cropped" else "_resized"
  }

  /** The extension given to an output file: the input's own for "same as
      input" (or no format), else the fixed file extension of the format. */
  function OutputExtension(u: FileURL, format: Option<OutputFormat>): (r: string)
    ensures '.' !in r && '/' !in r
    ensures format.None? || format == Some(SameAsInput) ==> r == PathExtension(u)
    ensures format == Some(Png) ==> r == "png"
    ensures format == Some(Jpeg) ==> r == "jpg"
    ensures format == Some(Webp) ==> r == "webp"
  {
    match if format.Some? then format.value else SameAsInput
    case SameAsInput => PathExtension(u)
    case Png => "png"
    case Jpeg => "jpg"
    case Webp => "webp"
  }

  /** The file extension of a chosen format is its engine name, except that
      JPEG files are named ".jpg". */
  lemma OutputExtensionMatchesEngineName(u: FileURL, f: OutputFormat)
    requires f != SameAsInput
    ensures OutputExtension(u, Some(f)) == if f == Jpeg then "jpg" else ToUniFFIOutputFormat(f).value
  {
  }

  /** The file name of an output: `<base>_<resized|cropped>[.<ext>]`, with
      no dot when there is no extension */
  function OutputFileName(u: FileURL, format: Option<OutputFormat>, mode: OperationMode): (r: string)
    ensures '/' !in r
  {
    var baseName := BaseName(u);
    var suffix := ModeSuffix(mode);
    var ext := OutputExtension(u, format);
    assert '/' !in suffix;
    var stem := baseName + suffix;
    assert '/' !in stem;
    if ext == "" then stem
    else
      assert '/' !in "." + ext;
      stem + ("." + ext)
  }

  /** `generateOutputPath(from:format:mode:)`: the output file sits in the
      input's directory, under the output file name. */
  function GenerateOutputPath(u: FileURL, format: Option<OutputFormat>, mode: OperationMode): (r: FileURL)
    ensures DeletingLastPathComponent(r) == DeletingLastPathComponent(u)
    ensures LastPathComponent(r) == OutputFileName(u, format, mode)
  {
    var directory := DeletingLastPathComponent(u);
    var filename := OutputFileName(u, format, mode);
    AppendThenSplit(directory, filename);
    AppendingPathComponent(directory, filename)
  }

  /** A last component `stem.ext` whose extension holds no dot splits into
      exactly that stem and extension. */
  lemma SplitAtLastDot(u: FileURL, stem: string, ext: string)
    requires '.' !in ext && LastPathComponent(u) == stem + "." + ext
    ensures PathExtension(u) == ext && BaseName(u) == stem
  {
    var last := LastPathComponent(u);
    assert last == stem + ['.'] + ext;
    LastIndexOfSeparator(stem, '.', ext);
    assert last[..|stem|] == stem;
    assert last[|stem| + 1..] == ext;
  }

  /** Read back, the output path has the chosen extension and the input's
      base name followed by the mode suffix. */
  lemma OutputPathReadsBack(u: FileURL, format: Option<OutputFormat>, mode: OperationMode)
    requires OutputExtension(u, format) != ""
    ensures PathExtension(GenerateOutputPath(u, format, mode)) == OutputExtension(u, format)
    ensures BaseName(GenerateOutputPath(u, format, mode)) == BaseName(u) + ModeSuffix(mode)
  {
    SplitAtLastDot(GenerateOutputPath(u, format, mode), BaseName(u) + ModeSuffix(mode), OutputExtension(u, format));
  }

  /** An input named `stem.ext` gets the output name `stem` + mode suffix,
      with the output extension, in the same directory. */
  lemma OutputPathOfSplitName(dir: FileURL, stem: string, ext: string, format: Option<OutputFormat>, mode: OperationMode)
    requires '/' !in stem && '/' !in ext && '.' !in ext
    ensures var u := AppendingPathComponent(dir, stem + "." + ext);
      var out := OutputExtension(u, format);
      && (format.None? || format == Some(SameAsInput) ==> out == ext)
      && GenerateOutputPath(u, format, mode) == AppendingPathComponent(dir, stem + ModeSuffix(mode) + (if out == "" then "" else "." + out))
  {
    var u := AppendingPathComponent(dir, stem + "." + ext);
    AppendThenSplit(dir, stem + "." + ext);
    SplitAtLastDot(u, stem, ext);
    OutputFileNameOf(u, stem, format, mode);
  }

  /** An input whose last component has no '.' keeps that whole component
      as its base name and, with no format chosen, gets no extension. */
  lemma OutputPathOfPlainName(dir: FileURL, name: string, format: Option<OutputFormat>, mode: OperationMode)
    requires '/' !in name && '.' !in name
    ensures var u := AppendingPathComponent(dir, name);
      var out := OutputExtension(u, format);
      && (format.None? || format == Some(SameAsInput) ==> out == "")
      && GenerateOutputPath(u, format, mode) == AppendingPathComponent(dir, name + ModeSuffix(mode) + (if out == "" then "" else "." + out))
  {
    var u := AppendingPathComponent(dir, name);
    AppendThenSplit(dir, name);
    BaseNameAndExtension(u);
    OutputFileNameOf(u, name, format, mode);
  }

  /** The output file name in terms of the input's base name */
  lemma OutputFileNameOf(u: FileURL, stem: string, format: Option<OutputFormat>, mode: OperationMode)
    requires BaseName(u) == stem
    ensures var out := OutputExtension(u, format);
      OutputFileName(u, format, mode) == stem + ModeSuffix(mode) + (if out == "" then "" else "." + out)
  {
  }

  /** `generateOutputPath(from:format:)`: the resize-mode output path */
  function GenerateResizeOutputPath(u: FileURL, format: Option<OutputFormat>): (r: FileURL)
    ensures r == GenerateOutputPath(u, format, Resize)
    ensures DeletingLastPathComponent(r) == DeletingLastPathComponent(u)
    ensures var name := LastPathComponent(r);
      |name| >= |BaseName(u)| + 8 && name[..|BaseName(u)| + 8] == BaseName(u) + "_resized"
  {
    var r := GenerateOutputPath(u, format, Resize);
    OutputFileNameOf(u, BaseName(u), format, Resize);
    r
  }

  // ------------------------------------------------------ image extensions

  /** The extensions recognised as images, all lower case */
  const KNOWN_IMAGE_EXTENSIONS: seq<string> :=
    ["png", "jpg", "jpeg", "webp", "gif", "bmp", "tiff", "tif", "heic", "heif", "avif"]

  lemma KnownExtensionsAreLowercase()
    ensures forall k | k in KNOWN_IMAGE_EXTENSIONS :: IsLowercase(k) && k != ""
  {
  }

  /** `isImageFile(_:)`: the extension matches a known image extension,
      ignoring case; a file without an extension is never an image. */
  function IsImageFile(u: FileURL): (r: bool)
    ensures PathExtension(u) == "" ==> !r
    ensures r <==> exists k | k in KNOWN_IMAGE_EXTENSIONS :: EqualsIgnoringCase(PathExtension(u), k)
  {
    var ext := Lowercased(PathExtension(u));
    KnownExtensionsAreLowercase();
    LowercasedMatches(PathExtension(u));
    if ext == "" then false else ext in KNOWN_IMAGE_EXTENSIONS
  }

  /** Lower-casing equals a lower-case word exactly when the two agree
      ignoring case. */
  lemma LowercasedMatches(s: string)
    ensures forall k | IsLowercase(k) :: Lowercased(s) == k <==> EqualsIgnoringCase(s, k)
  {
    forall k | IsLowercase(k)
      ensures Lowercased(s) == k <==> EqualsIgnoringCase(s, k)
    {
      if EqualsIgnoringCase(s, k) {
        assert forall i | 0 <= i < |s| :: Lowercased(s)[i] == k[i];
      }
    }
  }

  /** `URL.imageFormat`: the lower-cased extension, or nothing when there is
      no extension */
  function ImageFormat(u: FileURL): (r: Option<string>)
    ensures r.None? <==> PathExtension(u) == ""
    ensures r.Some? ==> IsLowercase(r.value) && EqualsIgnoringCase(r.value, PathExtension(u))
  {
    var ext := Lowercased(PathExtension(u));
    if ext == "" then None else Some(ext)
  }

  /** `String.toFileURL()`: the whitespace-trimmed text as a path, or nothing
      when only whitespace remains */
  function ToFileURL(s: string): (r: Option<FileURL>)
    ensures r.None? <==> AllWhitespace(s)
    ensures r.Some? ==> r.value.path == Trim(s) && r.value.path != [] && !IsWhitespace(r.value.path[0])
  {
    TrimEnds(s);
    var trimmed := Trim(s);
    if trimmed == "" then None else Some(FileURL(trimmed))
  }

  // ------------------------------------------------------------ file sizes

  datatype SizeUnit = SizeUnit(suffix: string, divisor: nat)

  const SIZE_UNITS: seq<SizeUnit> :=
    [SizeUnit("B", 1), SizeUnit("KB", 1_024), SizeUnit("MB", 1_024 * 1_024), SizeUnit("GB", 1_024 * 1_024 * 1_024)]

  /** `units.last(where: { value >= $0.divisor })`, as an index */
  function LastUnitAtMost(units: seq<SizeUnit>, value: nat): (r: Option<nat>)
    ensures r.Some? ==> r.value < |units| && units[r.value].divisor <= value
    ensures r.Some? ==> forall j | r.value < j < |units| :: units[j].divisor > value
    ensures r.None? ==> forall j | 0 <= j < |units| :: units[j].divisor > value
  {
    if units == [] then None
    else if units[|units| - 1].divisor <= value then Some(|units| - 1)
    else LastUnitAtMost(units[..|units| - 1], value)
  }

  /** A file size as `formatFileSize` renders it: byte counts as a whole
      number of "B", larger sizes as a quotient (printed with one decimal)
      and a unit suffix. */
  datatype SizeText = Whole(text: string) | OneDecimal(amount: real, suffix: string)

  /** `formatFileSize(_:)`: the largest unit whose divisor does not exceed the
      byte count ("B" when none does) */
  function FormatFileSize(bytes: UInt64): (r: SizeText)
    ensures r.Whole? <==> bytes < 1_024
    ensures r.Whole? ==> r.text == NatToString(bytes) + " B"
    ensures r.OneDecimal? ==> 1.0 <= r.amount && (r.suffix != "GB" ==> r.amount < 1_024.0)
    ensures r.OneDecimal? ==> r.suffix in {"KB", "MB", "GB"}
    ensures 1_024 <= bytes < 1_048_576 ==> r == OneDecimal(bytes as real / 1_024.0, "KB")
    ensures 1_048_576 <= bytes < 1_073_741_824 ==> r == OneDecimal(bytes as real / 1_048_576.0, "MB")
    ensures 1_073_741_824 <= bytes ==> r == OneDecimal(bytes as real / 1_073_741_824.0, "GB")
  {
    var found := LastUnitAtMost(SIZE_UNITS, bytes);
    var unit := if found.Some? then SIZE_UNITS[found.value] else SIZE_UNITS[0];
    assert unit.suffix == "B" <==> found.None? || found.value == 0;
    assert found.None? || found.value == 0 <==> bytes < 1_024 by {
      assert SIZE_UNITS[1].divisor == 1_024;
    }
    if unit.suffix == "B" then Whole(NatToString(bytes) + " B")
    else
      var amount := bytes as real / unit.divisor as real;
      UnitQuotientBounds(bytes, unit.divisor);
      assert found.value < 3 ==> bytes < SIZE_UNITS[found.value + 1].divisor == 1_024 * unit.divisor;
      OneDecimal(amount, unit.suffix)
  }

  /** A divisor no larger than the value, whose 1024-fold is larger, leaves
      a quotient in [1, 1024). */
  lemma UnitQuotientBounds(value: nat, divisor: nat)
    requires 0 < divisor <= value
    ensures 1.0 <= value as real / divisor as real
    ensures value < 1_024 * divisor ==> value as real / divisor as real < 1_024.0
  {
    var q := value as real / divisor as real;
    assert q * divisor as real == value as real;
    if value < 1_024 * divisor && q >= 1_024.0 {
      assert false;
    }
  }
}
