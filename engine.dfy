/** The records and errors exchanged with the image engine across the
    foreign-function boundary. The engine's operations themselves (probe,
    resize, supported formats) are not modelled: callers receive them as
    function parameters whose results are arbitrary. */
module Engine {
  import opened Common

  /** What probing an image file reports */
  datatype ImageInfo = ImageInfo(width: UInt32, height: UInt32, format: string, fileSizeBytes: UInt64, path: string)

  datatype ResizeAlgorithm = Nearest | Bilinear | Lanczos3

  /** The request handed to the engine's resize operation; `height == None`
      asks the engine to keep the aspect ratio, and `outputFormat == None`
      to keep the input's format. */
  datatype ResizeOptions = ResizeOptions(
    width: UInt32,
    height: Option<UInt32>,
    algorithm: ResizeAlgorithm,
    outputFormat: Option<string>)

  /** The error kinds the engine reports */
  datatype ImageError =
    | IoError(message: string)
    | UnsupportedFormat(format: string)
    | InvalidDimensions(message: string)
    | ProcessingError(message: string)
}
