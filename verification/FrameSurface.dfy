/**
 Surface updates passed from the decoder to the renderer (crates/frd-frame/src/surface.rs,
 crates/frd-core/src/geometry.rs).
 */
module FrameSurface {
  import opened Bytes

  datatype PixelSize = PixelSize(width: u32, height: u32)

  datatype PixelRect = PixelRect(x: u32, y: u32, width: u32, height: u32)

  datatype PixelFormat = Bgrx8UnormSrgb | Bgra8UnormSrgb | Rgba8UnormSrgb

  datatype FrameCompleteness = Incremental | FullBaseline

  datatype PixelPatch = PixelPatch(rect: PixelRect, strideBytes: u32, pixels: seq<u8>)

  datatype SurfaceUpdate =
    | Reset(session: u64, generation: u64, size: PixelSize, format: PixelFormat)
    | Damage(session: u64, generation: u64, revision: u64, patches: seq<PixelPatch>)
    | FrameBoundary(session: u64, generation: u64, revision: u64, completeness: FrameCompleteness)

  /** An update with the instant at which it was queued. */
  datatype Enqueued = Enqueued(at: int, update: SurfaceUpdate)

  function BytesPerPixel(format: PixelFormat): u32 {
    match format
    case Bgrx8UnormSrgb => 4
    case Bgra8UnormSrgb => 4
    case Rgba8UnormSrgb => 4
  }

  /** Whether the rectangle is not empty and its far corner is representable. */
  predicate HasBounds(rect: PixelRect) {
    rect.width != 0 && rect.height != 0 && rect.x + rect.width <= MAX_U32 && rect.y + rect.height <= MAX_U32
  }
}
