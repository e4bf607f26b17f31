# ImageResizer input model

A Dafny model of the input side of the ImageResizer macOS app. This is the
logic that turns loose text fields, file locations and drag gestures into a
validated request for the image engine:

- the resize screen's view model (`ImageResizerViewModel`), modelled as a
  class with the same fields, covering:
  - digit-only sanitising and `UInt32` parsing of the width and height fields;
  - the aspect-ratio link between the two fields;
  - the `canResize` gate and the ordered guards of `resizeImage`;
  - the `isProcessing` flag;
- the app-side option records (`AppResizeOptions` validation and conversion,
  the output-format table, the algorithm list, the dimensions label);
- the file helpers:
  - output-path derivation `<dir>/<base>_<resized|cropped>[.<ext>]`;
  - the image-extension whitelist;
  - the lower-cased image format;
  - trimmed text to a file URL;
  - the unit choice of the file-size label;
- the crop overlay's geometry over exact reals:
  - fitting the image into its container;
  - clamping the fixed-size crop frame into the displayed image;
  - the drag handlers that move the frame.

The image engine (a Rust library reached through generated bindings) is
opaque. Its calls are parameters of the methods that make them, and any
result is possible.

Files:

| file | module | models |
|---|---|---|
| common.dfy | `Common` | `Option`, `Result`, `Outcome`, unsigned integer ranges |
| text.dfy | `Text` | decimal numerals (`String(n)`), whitespace trimming, ASCII lower-casing |
| engine.dfy | `Engine` | the engine's record and error types (`ImageInfo`, `ResizeAlgorithm`, `ResizeOptions`, `ImageError`) |
| app_models.dfy | `AppModels` | `AppModels.swift` |
| file_helpers.dfy | `FileHelpers` | `FileManager+Extensions.swift` |
| view_model.dfy | `ViewModel` | `ImageResizerViewModel.swift` |
| crop_view.dfy | `CropView` | `CropView.swift` |

## Model

| member | source | states |
|---|---|---|
| Text.NatToString | ImageResizer/ViewModels/ImageResizerViewModel.swift:77-78 | `String(n)` is a non-empty digit string whose value is n, with no leading zero unless it is "0" |
| Text.CanonicalNumeralRoundTrip | ImageResizer/ViewModels/ImageResizerViewModel.swift:77-78 | every canonical numeral is `String` of its own value: printing and reading back are inverse |
| Text.NatToStringInjective | ImageResizer/ViewModels/ImageResizerViewModel.swift:77-78 | distinct numbers print differently |
| Text.LeadingZeroIgnored | ImageResizer/ViewModels/ImageResizerViewModel.swift:179-181 | a leading "0" does not change a digit string's value |
| Text.TrimStartDropsPrefix | ImageResizer/ViewModels/ImageResizerViewModel.swift:180 | stripping the start keeps a suffix; everything dropped is whitespace and the first kept character is not |
| Text.TrimEndDropsSuffix | ImageResizer/ViewModels/ImageResizerViewModel.swift:180 | stripping the end keeps a prefix; everything dropped is whitespace and the last kept character is not |
| Text.TrimEnds | ImageResizer/ViewModels/ImageResizerViewModel.swift:180 | trimmed text neither starts nor ends with whitespace, and is empty exactly when the text is all whitespace |
| Text.TrimRemovesOnlyWhitespace | ImageResizer/Extensions/FileManager+Extensions.swift:76 | the trimmed text is a slice of the input, and everything dropped before and after it is whitespace |
| Text.TrimKeepsTrimmed | ImageResizer/Extensions/FileManager+Extensions.swift:76 | text without whitespace at its ends is left unchanged |
| Text.Lowercased | ImageResizer/Extensions/FileManager+Extensions.swift:54 | `lowercased()` keeps the length, lower-cases each letter in place, and yields lower-case text |
| AppModels.DimensionsString | ImageResizer/Models/AppModels.swift:20-22 | the digits up to the first non-digit are `String(width)`, then " × ", then `String(height)`; read back, they give the width and the height |
| AppModels.DimensionsStringInjective | ImageResizer/Models/AppModels.swift:20-22 | the "<width> × <height>" label determines both the width and the height |
| AppModels.AllCases | ImageResizer/Models/AppModels.swift:81-83 | `allCases` lists nearest, bilinear and lanczos3 once each, in that order |
| AppModels.ToUniFFIOutputFormat | ImageResizer/Models/AppModels.swift:66-77 | only sameAsInput maps to nil; the others map to "png", "jpeg" or "webp" |
| AppModels.ToUniFFIOutputFormatInjective | ImageResizer/Models/AppModels.swift:66-77 | no two formats share an engine name |
| AppModels.Validate | ImageResizer/Models/AppModels.swift:41-48 | passes iff the width is in 1..9999 and any height given is too; an out-of-range width gives the width error even when the height is also out of range; otherwise the height error |
| AppModels.ValidateBoundaries | ImageResizer/Models/AppModels.swift:41-48 | widths 1 and 9999 pass, 10000 fails, no height always passes, (0, 0) gives the width error, (500, 10000) the height error, and the default options (lines 26-29) pass |
| AppModels.ToResizeOptions | ImageResizer/Models/AppModels.swift:31-39 | fails iff `validate` fails, with the same error; on success width, height and algorithm are copied, the format is mapped, and the dimensions are in range |
| FileHelpers.AppendThenSplit | ImageResizer/Extensions/FileManager+Extensions.swift:46 | appending a name without '/' to a directory gives a URL whose last component is that name and whose parent is the directory |
| FileHelpers.BaseNameAndExtension | ImageResizer/Extensions/FileManager+Extensions.swift:29-36 | the base name and the extension, joined with '.', give back the last component; without a dot the extension is empty |
| FileHelpers.OutputExtension | ImageResizer/Extensions/FileManager+Extensions.swift:33-43 | nil and sameAsInput keep the input's extension; png, jpeg and webp give "png", "jpg" and "webp" |
| FileHelpers.OutputExtensionMatchesEngineName | ImageResizer/Extensions/FileManager+Extensions.swift:37-42 | a chosen format's file extension is its engine name, except jpeg, which gives "jpg" |
| FileHelpers.OutputFileName | ImageResizer/Extensions/FileManager+Extensions.swift:45 | the output file name never contains '/' |
| FileHelpers.GenerateOutputPath | ImageResizer/Extensions/FileManager+Extensions.swift:27-47 | the output sits in the input's directory, under the output file name |
| FileHelpers.OutputPathReadsBack | ImageResizer/Extensions/FileManager+Extensions.swift:27-47 | read back, the output path has the chosen extension, and its base name is the input's base name plus "_resized" or "_cropped" |
| FileHelpers.OutputPathOfSplitName | ImageResizer/Extensions/FileManager+Extensions.swift:27-47 | an input `dir/stem.ext` gives `dir/stem_<mode>.<out>`, with out = ext for same-as-input, and no dot when out is empty |
| FileHelpers.OutputPathOfPlainName | ImageResizer/Extensions/FileManager+Extensions.swift:27-47 | an input `dir/name` whose name has no '.' gives `dir/name_<mode>[.<out>]`, with no extension for nil or same-as-input |
| FileHelpers.GenerateResizeOutputPath | ImageResizer/Extensions/FileManager+Extensions.swift:49-51 | the two-argument overload is the three-argument one in resize mode: the same directory, the file named base + "_resized" and the extension of `OutputExtension` |
| FileHelpers.KnownExtensionsAreLowercase | ImageResizer/Extensions/FileManager+Extensions.swift:56 | the whitelist holds only non-empty lower-case names |
| FileHelpers.LowercasedMatches | ImageResizer/Extensions/FileManager+Extensions.swift:54-57 | against a lower-case name, comparing the lower-cased text is comparing case-insensitively |
| FileHelpers.IsImageFile | ImageResizer/Extensions/FileManager+Extensions.swift:53-58 | false without an extension; otherwise true iff the extension equals a whitelist entry ignoring case |
| FileHelpers.ImageFormat | ImageResizer/Extensions/FileManager+Extensions.swift:68-71 | nil iff the extension is empty, else a lower-case text equal to the extension ignoring case |
| FileHelpers.ToFileURL | ImageResizer/Extensions/FileManager+Extensions.swift:75-78 | nil iff the text is all whitespace, else the URL of the trimmed text |
| FileHelpers.LastUnitAtMost | ImageResizer/Extensions/FileManager+Extensions.swift:13 | `last(where:)`: the found unit's divisor is at most the value and every later divisor exceeds it; none is found only when every divisor exceeds it |
| FileHelpers.FormatFileSize | ImageResizer/Extensions/FileManager+Extensions.swift:4-20 | below 1024 bytes the label is "<n> B"; from 1024 bytes, below 1024² bytes, below 1024³ bytes and above, the amount is the byte count divided by 1024, 1024² or 1024³ with suffix KB, MB or GB; the amount is at least 1, and below 1024 for KB and MB |
| FileHelpers.UnitQuotientBounds | ImageResizer/Extensions/FileManager+Extensions.swift:14 | dividing by the chosen unit's divisor gives at least 1, and below 1024 when the next unit is too large |
| ViewModel.SanitizeNumeric | ImageResizer/ViewModels/ImageResizerViewModel.swift:175-177 | the result is all digits, no longer than the input, and equal to the input when that is all digits |
| ViewModel.SanitizeIdempotent | ImageResizer/ViewModels/ImageResizerViewModel.swift:175-177 | sanitising twice equals sanitising once |
| ViewModel.SanitizeDistributes | ImageResizer/ViewModels/ImageResizerViewModel.swift:175-177 | sanitising a concatenation concatenates the sanitised parts, so order is kept |
| ViewModel.SanitizeCounts | ImageResizer/ViewModels/ImageResizerViewModel.swift:175-177 | each numeric character is kept as often as it occurs; no other character is kept |
| ViewModel.ParseUInt32 | ImageResizer/ViewModels/ImageResizerViewModel.swift:179-181 | a parsed value comes from non-blank text, and text that trims to a leading '-' parses only to 0; the lemmas below give the rest |
| ViewModel.ParseBlank | ImageResizer/ViewModels/ImageResizerViewModel.swift:179-181 | all-whitespace text (the empty text included) gives nil |
| ViewModel.ParseTrimmedDigits | ImageResizer/ViewModels/ImageResizerViewModel.swift:179-181 | text that trims to digits gives their value when it fits in 32 bits, else nil |
| ViewModel.ParseRejectsNonNumeral | ImageResizer/ViewModels/ImageResizerViewModel.swift:179-181 | text that trims to anything but an optionally signed, non-empty digit string (such as "12a") gives nil |
| ViewModel.ParseSigned | ImageResizer/ViewModels/ImageResizerViewModel.swift:179-181 | for text that trims to a sign and digits, a '+' is ignored and a '-' is accepted only before a zero value |
| ViewModel.ParseDigits | ImageResizer/ViewModels/ImageResizerViewModel.swift:179-181 | a digit string gives its value, or nil when it is empty or above 4294967295 |
| ViewModel.ParseDecimalRoundTrip | ImageResizer/ViewModels/ImageResizerViewModel.swift:179-181 | parsing `String(n)` gives n back for every 32-bit n |
| ViewModel.ParseIgnoresLeadingZero | ImageResizer/ViewModels/ImageResizerViewModel.swift:179-181 | leading zeros do not change what a digit string parses to |
| ViewModel.RoundedScaleNearest | ImageResizer/ViewModels/ImageResizerViewModel.swift:45-46 | the result is the integer nearest to v·num/den, with halves rounded up |
| ViewModel.ClampDimension | ImageResizer/ViewModels/ImageResizerViewModel.swift:46-47 | the result is in 1..9999, equals n when n is in range, and is 1 or 9999 beyond the ends |
| ViewModel.LinkedDimension | ImageResizer/ViewModels/ImageResizerViewModel.swift:45-47 | a linked dimension is always in 1..9999 |
| ViewModel.LinkedDimensionExample | ImageResizer/ViewModels/ImageResizerViewModel.swift:39-48 | a 4000×3000 image with width 1024 gets height 768 |
| ViewModel.LinkedDimensionOfOriginal | ImageResizer/ViewModels/ImageResizerViewModel.swift:39-48 | linking the original width gives the original height, kept in 1..9999 |
| ViewModel.LinkRoundTripBound | ImageResizer/ViewModels/ImageResizerViewModel.swift:39-103 | linking width to height and back (before clamping) changes the width by at most (W+H)/(2H) |
| ViewModel.LinkRoundTripNarrow | ImageResizer/ViewModels/ImageResizerViewModel.swift:39-103 | for images less than three times as wide as they are tall, that round trip moves the width by at most 1 |
| ViewModel.LinkRoundTripDrift | ImageResizer/ViewModels/ImageResizerViewModel.swift:39-103 | wider images drift further: for a 7×2 image, width 2 links to height 1 and back to width 4; for a 4000×100 image, width 30 links to height 1 and back to width 40 |
| ViewModel.UserMessage | ImageResizer/ViewModels/ImageResizerViewModel.swift:183-198 | an error that is not an engine error shows its localized description |
| ViewModel.UserMessageIdentifiesError | ImageResizer/ViewModels/ImageResizerViewModel.swift:183-198 | the message of an engine error determines its kind and its text |
| ViewModel.ImageResizerViewModel.constructor | ImageResizer/ViewModels/ImageResizerViewModel.swift:50-57 | starts with empty fields, the lock on, lanczos3, same-as-input, output to home/Desktop and the engine's format list |
| ViewModel.ImageResizerViewModel.CalculatedHeight | ImageResizer/ViewModels/ImageResizerViewModel.swift:39-48 | defined iff the lock is on, the original is known with width > 0, and the width text parses; its value is the in-range linked height |
| ViewModel.ImageResizerViewModel.CanResize | ImageResizer/ViewModels/ImageResizerViewModel.swift:28-37 | holds iff an image and an output are chosen, the width text parses into 1..9999, and, unless locked, so does the height text |
| ViewModel.ImageResizerViewModel.ResizeGuardFailure | ImageResizer/ViewModels/ImageResizerViewModel.swift:128-151 | no guard of `resizeImage` fails exactly when `canResize` holds; the guards report in order: a missing image, then a missing output, then a width out of range, then (only when unlocked) a height out of range |
| ViewModel.ImageResizerViewModel.ResizeRequest | ImageResizer/ViewModels/ImageResizerViewModel.swift:153-161 | the request sent has an in-range width, has no height iff locked, passes `validate`; its width is the parsed width text and, when unlocked, its height is the parsed height text; `toResizeOptions` of the app options with these values succeeds with exactly this request |
| ViewModel.ImageResizerViewModel.SelectImage | ImageResizer/ViewModels/ImageResizerViewModel.swift:60-66 | records the image; clears the error, the result and the original info; sets the output to `generateOutputPath(from:format:mode:)` of the image in resize mode for the selected format; changes no other field |
| ViewModel.ImageResizerViewModel.LoadImageInfo | ImageResizer/ViewModels/ImageResizerViewModel.swift:70-82 | on success, stores the info, writes the size into the text fields (which parse back to it) and clears the error; on failure, stores the user message and leaves the info and the fields alone |
| ViewModel.ImageResizerViewModel.UpdateWidth | ImageResizer/ViewModels/ImageResizerViewModel.swift:84-90 | stores the sanitised width; the height becomes the calculated height when there is one and is otherwise unchanged; no other field changes |
| ViewModel.ImageResizerViewModel.UpdateHeight | ImageResizer/ViewModels/ImageResizerViewModel.swift:92-103 | stores the sanitised height; the width is relinked only when locked with a known non-zero original height and a parsable height, and is otherwise unchanged |
| ViewModel.ImageResizerViewModel.ToggleAspectRatio | ImageResizer/ViewModels/ImageResizerViewModel.swift:105-111 | flips the lock and never touches the width; unlocking keeps the height; locking refreshes it from the width when it can |
| ViewModel.ImageResizerViewModel.ResizeImage | ImageResizer/ViewModels/ImageResizerViewModel.swift:128-173 | sends a request iff `canResize`, and otherwise reports the first failing guard without calling the engine; the request is `ResizeRequest`; the engine's result or error message is stored; `isProcessing` is false again on every exit |
| CropView.FittedImageRect | ImageResizer/Views/CropView.swift:56-66 | the zero rect when a side is not positive, and otherwise centred in the container; `FittedImageRectFits` gives the rest |
| CropView.FittedImageRectFits | ImageResizer/Views/CropView.swift:56-66 | the zero rect when a side is not positive; otherwise one scale for both axes (aspect kept), inside the container, touching two opposite container sides, and centred |
| CropView.FittedSameAspectFills | ImageResizer/Views/CropView.swift:56-66 | an image with the container's aspect ratio fills the whole container |
| CropView.MaxOffset | ImageResizer/Views/CropView.swift:127-128 | the largest offset is never negative; it puts the frame's far edge on the image's edge when the frame fits, and is 0 when the frame is larger than the image |
| CropView.ClampOffset | ImageResizer/Views/CropView.swift:130-131 | the clamped offset lies in 0..max, is unchanged when already there, and is 0 or max beyond the ends |
| CropView.ClampCropRect | ImageResizer/Views/CropView.swift:122-133 | the result has the frame's size and an offset in [0, max(0, image − frame)] on each axis; it lies inside the image when the frame fits; in-range offsets are kept |
| CropView.ClampKeepsPlaced | ImageResizer/Views/CropView.swift:122-133 | a frame already placed inside the image is its own clamp |
| CropView.ClampIdempotent | ImageResizer/Views/CropView.swift:122-133 | clamping twice equals clamping once |
| CropView.ClampIgnoresSize | ImageResizer/Views/CropView.swift:122-133 | the clamp's result does not depend on the incoming width and height |
| CropView.ClampIsNearest | ImageResizer/Views/CropView.swift:122-133 | on each axis, no allowed position is nearer the requested one than the clamped position |
| CropView.ZeroDragKeepsPlaced | ImageResizer/Views/CropView.swift:92-108 | a zero-offset drag of a placed frame leaves it where it is |
| CropView.CropFrameOverlay.constructor | ImageResizer/Views/CropView.swift:69-74 | the overlay starts from its bindings, with no drag in progress |
| CropView.CropFrameOverlay.OnAppear | ImageResizer/Views/CropView.swift:114-119 | publishes the displayed size, and leaves the frame placed, equal to the clamp of the old frame (so a frame already placed stays put) |
| CropView.CropFrameOverlay.OnChanged | ImageResizer/Views/CropView.swift:92-109 | the first event of a drag records the start; every event sets the frame to the clamp of that start moved by the drag's total offset, so the frame stays placed |
| CropView.CropFrameOverlay.OnEnded | ImageResizer/Views/CropView.swift:110-112 | the drag start is cleared |
| CropView.DragTwiceScenario | ImageResizer/Views/CropView.swift:92-112 | after two events of one drag, the frame is where the second offset puts it from the start: offsets do not accumulate |

## Left out

- Concurrency and reactivity are out: `@MainActor`, `@Observable`, `async`, and the `Task` that `selectImage` spawns to load the image info. `SelectImage` and `LoadImageInfo` are separate methods, and a caller runs them in turn.
- Engine calls are function parameters, so any result or error is possible. These are `getImageInfo` (the `probe` of `LoadImageInfo`), `ImageResizer.resizeImage` (the `engine` of `ResizeImage`) and `getSupportedFormats` (the constructor's `engineFormats`). The Rust side has no implementation to model.
- `loadSupportedFormats` is folded into the constructor, which receives the list.
- `FileManager.default.homeDirectoryForCurrentUser` is the constructor's `home` parameter.
- ViewModel.ImageResizerViewModel.ResizeImage: does not reject a second call while one is in flight. The source has no such check either; only the disabled button in the UI prevents it. So the model claims nothing about concurrent dispatch.
- ViewModel.ImageResizerViewModel.ResizeImage: the model does not show the flag raised while the engine runs. `isProcessing` is set before the engine call and reset afterwards, so only the final state (false) is stated.
- `AppImageInfo` is a transparent wrapper around the engine's `ImageInfo`, so the model stores `ImageInfo` directly.
- `selectOutputLocation`, the save and open panels, drag-and-drop ingestion, security-scoped file access and `NSImage` loading are interactive or OS I/O.
- The layout views (ContentView, ResizeOptionsView, ResultView, ImagePreviewView, CropOptionsView, and the drawing part of `CropView.body`) hold no logic to model.
- The crop members of the view model (`operationMode`, `cropRect`, `cropDisplayedImageSize`, `cropImage`, `canProcess`) and the `CropRect` type are not part of this model: they are used but defined in no file modelled here. `CropRect` is modelled only by the four fields the overlay reads and writes.
- CropView.FittedImageRect: computes over exact reals, not `CGFloat`. The fitted side `image.width * (container.width / image.width)` equals the container side exactly only over reals; in `CGFloat` it can differ by rounding. So `FittedImageRectFits`'s "inside the container", touching and `0 <= x, y` facts, and the clamp's exact bounds, hold only up to floating-point rounding.
- No mapping from display to pixel coordinates is modelled, because none is present in the modelled code.
- FormatFileSize: the `"%.1f"` rendering of the amount is left out. The contract gives the exact quotient and the unit suffix, not the one-decimal text.
- RoundedScaleNearest: RoundedScale uses exact rational rounding with halves rounded up. The source's `Double` arithmetic may disagree on exact .5 ties and on huge values.
- ViewModel.ImageResizerViewModel.CalculatedHeight: does not model the runtime trap of `Int(...)`. The trap occurs when the rounded product exceeds `Int.max`, which needs a ratio above about 2^31 (an image over two billion times taller than it is wide). The model clamps such values to 9999 instead.
- ViewModel.ImageResizerViewModel.UpdateHeight: has the same gap for the width it relinks.
- ViewModel.IsNumber: counts only the ASCII digits as numeric. `Character.isNumber` also accepts other numerals; those would survive sanitising and then fail to parse.
- Text.Trim: trims ASCII whitespace only.
- Text.Lowercased: lower-cases ASCII letters only.
- FileHelpers.LastPathComponent: treats a path as text split at its last '/' and takes the extension after the last '.' of the last component. Foundation's handling of trailing slashes, hidden files and relative paths is not modelled.
- `URL(fileURLWithPath:)` is modelled as keeping the trimmed text as its path.
- `formatileSize`, `fileSize`, `fromFileURL` and the `displayName` tables are outside the modelled core: they are a forwarding alias, a file-system query, an accessor and UI labels.
- No single path is stated on its own: the output path of `/a/b/photo.heic` with webp in crop mode, `/a/b/photo_cropped.webp`, is an instance of `OutputPathOfSplitName`, which covers every directory, stem, extension, format and mode.

## Behaviour worth knowing

- Selecting a new image clears the error, the result and the original size, but keeps the width and height text, the lock, the algorithm and the format.
- The two link computations (width to height in `updateWidth`, height to width in `updateHeight`) are not exact inverses. Composed, they move a width by at most one whenever the image is less than three times as wide as it is tall (`LinkRoundTripNarrow`). Wider images can drift further: for a 7×2 image, width 2 gives height 1, which gives width 4; for a 4000×100 image, width 30 gives height 1, which gives width 40 (`LinkRoundTripDrift`). The general bound is `LinkRoundTripBound`. The app does not chain them this way: the height field is disabled while the lock is on (ImageResizer/Views/ResizeOptionsView.swift:38).
- In the drag handler, the guard that unwraps the drag start can never fail: the start is set just before it.
