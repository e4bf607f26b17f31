/** The crop preview's geometry: fitting an image into its container, and
    keeping the fixed-size crop frame inside the displayed image while it is
    dragged. Screen coordinates are exact reals. */
module CropView {
  import opened Common

  datatype Size = Size(width: real, height: real)

  datatype Rect = Rect(x: real, y: real, width: real, height: real)

  /** The position and size of the crop frame, in displayed-image
      coordinates (only the four fields the overlay uses) */
  datatype CropRect = CropRect(x: real, y: real, width: real, height: real)

  function Min(a: real, b: real): real {
    if a <= b then a else b
  }

  function Max(a: real, b: real): real {
    if a >= b then a else b
  }

  const ZERO_RECT: Rect := Rect(0.0, 0.0, 0.0, 0.0)

  /** Both sides are positive */
  predicate Positive(s: Size) {
    s.width > 0.0 && s.height > 0.0
  }

  // ------------------------------------------------------------ fitting

  /** `fittedImageRect(containerSize:imagePixelSize:)`: the image scaled by
      one factor so that it fits the container, centred in it; the zero rect
      when either size has a side that is not positive */
  function FittedImageRect(container: Size, image: Size): (r: Rect)
    ensures !Positive(container) || !Positive(image) ==> r == ZERO_RECT
    ensures Positive(container) && Positive(image) ==>
      2.0 * r.x + r.width == container.width && 2.0 * r.y + r.height == container.height
  {
    if !(container.width > 0.0 && container.height > 0.0) then ZERO_RECT
    else if !(image.width > 0.0 && image.height > 0.0) then ZERO_RECT
    else
      var scale := Min(container.width / image.width, container.height / image.height);
      var w := image.width * scale;
      var h := image.height * scale;
      Rect((container.width - w) / 2.0, (container.height - h) / 2.0, w, h)
  }

  /** The fitted rect is the zero rect when a side is not positive; otherwise
      it keeps the image's aspect ratio, lies inside the container, touches
      two opposite sides of it and is centred in it. */
  lemma FittedImageRectFits(container: Size, image: Size)
    ensures var r := FittedImageRect(container, image);
      !Positive(container) || !Positive(image) ==> r == ZERO_RECT
    ensures var r := FittedImageRect(container, image);
      Positive(container) && Positive(image) ==>
      && 0.0 < r.width <= container.width && 0.0 < r.height <= container.height
      && r.width * image.height == r.height * image.width
      && (r.width == container.width || r.height == container.height)
      && 2.0 * r.x + r.width == container.width && 2.0 * r.y + r.height == container.height
      && 0.0 <= r.x && 0.0 <= r.y
  {
    if Positive(container) && Positive(image) {
      var scale := Min(container.width / image.width, container.height / image.height);
      ScaledWithin(image.width, scale, container.width);
      ScaledWithin(image.height, scale, container.height);
      assert (image.width * scale) * image.height == (image.height * scale) * image.width;
    }
  }

  /** A side scaled by at most `bound / side` is at most `bound`, and it
      reaches `bound` at that scale exactly. */
  lemma ScaledWithin(side: real, scale: real, bound: real)
    requires side > 0.0 && bound > 0.0 && 0.0 < scale <= bound / side
    ensures 0.0 < side * scale <= bound
    ensures scale == bound / side ==> side * scale == bound
  {
    assert side * (bound / side) == bound;
  }

  /** An image with the container's own aspect ratio fills the container. */
  lemma FittedSameAspectFills(container: Size, image: Size)
    requires Positive(container) && Positive(image)
    requires container.width * image.height == container.height * image.width
    ensures FittedImageRect(container, image) == Rect(0.0, 0.0, container.width, container.height)
  {
    var r := FittedImageRect(container, image);
    assert container.width / image.width == container.height / image.height by {
      assert container.width / image.width * (image.width * image.height)
          == container.width * image.height;
      assert container.height / image.height * (image.width * image.height)
          == container.height * image.width;
    }
  }

  // ------------------------------------------------------------ clamping

  /** The largest x at which a frame still starts inside the image (0 when
      the frame is wider than the image); likewise for y */
  function MaxOffset(imageSide: real, frameSide: real): (r: real)
    ensures r >= 0.0
    ensures frameSide <= imageSide ==> r + frameSide == imageSide
    ensures imageSide < frameSide ==> r == 0.0
  {
    Max(0.0, imageSide - frameSide)
  }

  /** `v` lies in 0..`hi` */
  predicate Within(v: real, hi: real) {
    0.0 <= v <= hi
  }

  /** The crop rect has the frame's size and a position the clamp allows */
  predicate Placed(rect: CropRect, imageSize: Size, frameSize: Size) {
    && rect.width == frameSize.width && rect.height == frameSize.height
    && Within(rect.x, MaxOffset(imageSize.width, frameSize.width))
    && Within(rect.y, MaxOffset(imageSize.height, frameSize.height))
  }

  /** `min(max(0, v), hi)` for hi >= 0: v moved to the nearest point of 0..hi */
  function ClampOffset(v: real, hi: real): (r: real)
    requires hi >= 0.0
    ensures Within(r, hi)
    ensures Within(v, hi) ==> r == v
    ensures v < 0.0 ==> r == 0.0
    ensures v > hi ==> r == hi
  {
    Min(Max(0.0, v), hi)
  }

  /** `clampCropRect(_:imageSize:frameSize:)`: the frame's size, at the
      position nearest to the requested one that keeps it in the image */
  function ClampCropRect(rect: CropRect, imageSize: Size, frameSize: Size): (r: CropRect)
    ensures Placed(r, imageSize, frameSize)
    ensures frameSize.width <= imageSize.width ==> 0.0 <= r.x && r.x + r.width <= imageSize.width
    ensures frameSize.height <= imageSize.height ==> 0.0 <= r.y && r.y + r.height <= imageSize.height
    ensures Within(rect.x, MaxOffset(imageSize.width, frameSize.width)) ==> r.x == rect.x
    ensures Within(rect.y, MaxOffset(imageSize.height, frameSize.height)) ==> r.y == rect.y
  {
    var sized := rect.(width := frameSize.width, height := frameSize.height);
    var maxX := MaxOffset(imageSize.width, frameSize.width);
    var maxY := MaxOffset(imageSize.height, frameSize.height);
    sized.(x := ClampOffset(sized.x, maxX), y := ClampOffset(sized.y, maxY))
  }

  /** A placed rect is its own clamp. */
  lemma ClampKeepsPlaced(rect: CropRect, imageSize: Size, frameSize: Size)
    requires Placed(rect, imageSize, frameSize)
    ensures ClampCropRect(rect, imageSize, frameSize) == rect
  {
  }

  /** Clamping twice is clamping once. */
  lemma ClampIdempotent(rect: CropRect, imageSize: Size, frameSize: Size)
    ensures var once := ClampCropRect(rect, imageSize, frameSize);
      ClampCropRect(once, imageSize, frameSize) == once
  {
    ClampKeepsPlaced(ClampCropRect(rect, imageSize, frameSize), imageSize, frameSize);
  }

  /** The clamp ignores the size it is given. */
  lemma ClampIgnoresSize(rect: CropRect, width: real, height: real, imageSize: Size, frameSize: Size)
    ensures ClampCropRect(rect.(width := width, height := height), imageSize, frameSize)
         == ClampCropRect(rect, imageSize, frameSize)
  {
  }

  function Distance(a: real, b: real): real {
    if a <= b then b - a else a - b
  }

  /** No allowed position is nearer to the requested one than the clamped
      position, on either axis. */
  lemma ClampIsNearest(rect: CropRect, imageSize: Size, frameSize: Size, other: CropRect)
    requires Placed(other, imageSize, frameSize)
    ensures var r := ClampCropRect(rect, imageSize, frameSize);
      Distance(r.x, rect.x) <= Distance(other.x, rect.x) && Distance(r.y, rect.y) <= Distance(other.y, rect.y)
  {
    var maxX := MaxOffset(imageSize.width, frameSize.width);
    var maxY := MaxOffset(imageSize.height, frameSize.height);
    OffsetIsNearest(rect.x, maxX, other.x);
    OffsetIsNearest(rect.y, maxY, other.y);
  }

  lemma OffsetIsNearest(v: real, hi: real, w: real)
    requires hi >= 0.0 && Within(w, hi)
    ensures Distance(ClampOffset(v, hi), v) <= Distance(w, v)
  {
  }

  /** The rect moved by a drag offset */
  function Translated(rect: CropRect, translation: Size): (r: CropRect)
    ensures r.width == rect.width && r.height == rect.height
    ensures r.x - rect.x == translation.width && r.y - rect.y == translation.height
  {
    rect.(x := rect.x + translation.width, y := rect.y + translation.height)
  }

  /** Dragging a placed frame by a zero offset leaves it where it is. */
  lemma ZeroDragKeepsPlaced(rect: CropRect, imageSize: Size, frameSize: Size)
    requires Placed(rect, imageSize, frameSize)
    ensures ClampCropRect(Translated(rect, Size(0.0, 0.0)), imageSize, frameSize) == rect
  {
    assert Translated(rect, Size(0.0, 0.0)) == rect;
    ClampKeepsPlaced(rect, imageSize, frameSize);
  }

  // ------------------------------------------------------------ the overlay

  /** The crop frame is 200 points wide, with the 856:836 shape */
  const FRAME_WIDTH: real := 200.0
  const FRAME_HEIGHT: real := FRAME_WIDTH * (836.0 / 856.0)
  const FRAME_SIZE: Size := Size(FRAME_WIDTH, FRAME_HEIGHT)

  /** `CropFrameOverlay`: the dashed crop frame over the fitted image. The
      crop rect and the displayed size are bindings into the view model; the
      drag start is the overlay's own state. */
  class CropFrameOverlay {
    var cropRect: CropRect
    var displayedImageSize: Size
    var dragStartRect: Option<CropRect>
    const imageRect: Rect

    /** The size of the image rect */
    function ImageSize(): (r: Size)
      ensures r.width == imageRect.width && r.height == imageRect.height
    {
      Size(imageRect.width, imageRect.height)
    }

    /** The frame has its fixed size and sits inside the displayed image */
    predicate FramePlaced()
      reads this
    {
      Placed(cropRect, ImageSize(), FRAME_SIZE)
    }

    constructor (rect: CropRect, image: Rect, displayed: Size)
      ensures cropRect == rect && imageRect == image && displayedImageSize == displayed
      ensures dragStartRect.None?
    {
      cropRect := rect;
      imageRect := image;
      displayedImageSize := displayed;
      dragStartRect := None;
    }

    /** `onAppear`: publish the displayed size and clamp the frame into the
        image at its fixed size */
    method OnAppear()
      modifies this`displayedImageSize, this`cropRect
      ensures displayedImageSize == ImageSize()
      ensures FramePlaced()
      ensures cropRect == ClampCropRect(old(cropRect), ImageSize(), FRAME_SIZE)
      ensures old(FramePlaced()) ==> cropRect == old(cropRect)
    {
      displayedImageSize := ImageSize();
      cropRect := cropRect.(width := FRAME_WIDTH, height := FRAME_HEIGHT);
      ClampIgnoresSize(old(cropRect), FRAME_WIDTH, FRAME_HEIGHT, ImageSize(), FRAME_SIZE);
      cropRect := ClampCropRect(cropRect, displayedImageSize, FRAME_SIZE);
    }

    /** The drag's `onChanged`: the first event of a drag records where the
        frame started; every event places the frame at that start moved by
        the drag's total offset, clamped into the image. */
    method OnChanged(translation: Size)
      modifies this`displayedImageSize, this`dragStartRect, this`cropRect
      ensures displayedImageSize == ImageSize()
      ensures dragStartRect == if old(dragStartRect).None? then Some(old(cropRect)) else old(dragStartRect)
      ensures FramePlaced()
      ensures cropRect == ClampCropRect(Translated(dragStartRect.value, translation), ImageSize(), FRAME_SIZE)
    {
      displayedImageSize := ImageSize();
      if dragStartRect.None? {
        dragStartRect := Some(cropRect);
      }

      var start := dragStartRect.value;
      start := start.(width := FRAME_WIDTH, height := FRAME_HEIGHT);

      var next := start;
      next := next.(x := next.x + translation.width);
      next := next.(y := next.y + translation.height);
      next := next.(width := FRAME_WIDTH, height := FRAME_HEIGHT);

      ClampIgnoresSize(Translated(dragStartRect.value, translation), FRAME_WIDTH, FRAME_HEIGHT, ImageSize(), FRAME_SIZE);
      cropRect := ClampCropRect(next, ImageSize(), FRAME_SIZE);
    }

    /** The drag's `onEnded`: forget the start, so the next drag starts from
        wherever the frame now is */
    method OnEnded()
      modifies this`dragStartRect
      ensures dragStartRect.None?
    {
      dragStartRect := None;
    }
  }

  /** Two events of one drag: the frame lands where the second event's total
      offset puts it from the drag's start, not where the two offsets added
      together would. */
  method DragTwiceScenario(overlay: CropFrameOverlay, first: Size, second: Size)
    requires overlay.dragStartRect.None?
    modifies overlay
    ensures overlay.cropRect == ClampCropRect(Translated(old(overlay.cropRect), second), overlay.ImageSize(), FRAME_SIZE)
    ensures overlay.dragStartRect == Some(old(overlay.cropRect))
  {
    overlay.OnChanged(first);
    overlay.OnChanged(second);
  }
}
