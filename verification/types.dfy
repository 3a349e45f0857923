/** Values shared by the test-pattern source: the element's integer widths, the
    negotiated video format descriptor, its defaults and the error results. */
module Types {

  datatype Option<+T> = None | Some(value: T)

  datatype Result<+T, +E> = Ok(value: T) | Err(error: E)

  /** Rust's `u32`. */
  const U32_LIMIT: nat := 0x1_0000_0000
  type U32 = x: int | 0 <= x < U32_LIMIT

  /** A Rust `as u32` cast of a non-negative value: keeps the low 32 bits. */
  function AsU32(x: nat): (r: U32)
    ensures x < U32_LIMIT ==> r == x
  {
    x % U32_LIMIT
  }

  function Max(a: nat, b: nat): nat {
    if a < b then b else a
  }

  /** Nanoseconds per second (`gst::ClockTime::SECOND`). */
  const SECOND: nat := 1_000_000_000

  /** A framerate `numer/denom` frames per second. */
  datatype Fraction = Fraction(numer: nat, denom: nat)

  /** The pixel layouts the element can meet: `Unknown` is the layout a fill refuses. */
  datatype VideoFormat = Unknown | Rgba | Bgrx

  /** The negotiated format descriptor: pixel layout, frame size in pixels,
      framerate and the byte size of one frame. */
  datatype VideoInfo = VideoInfo(format: VideoFormat, width: nat, height: nat, fps: Fraction, size: nat)

  /** The first structure of a capability set: its media-type name and the
      format descriptor the video library parses out of it (`None` when it cannot). */
  datatype Caps = Caps(name: string, parsed: Option<VideoInfo>)

  const RAW_VIDEO: string := "video/x-raw"

  const DEFAULT_FOREGROUND_COLOR: U32 := 0xFFFF_FFFF
  const DEFAULT_BACKGROUND_COLOR: U32 := 0xFF00_0000
  const DEFAULT_SPEED: U32 := 5
  const DEFAULT_SIZE: U32 := 50

  /** The working format `start` installs: RGBA, 320x240, framerate 0/1,
      four bytes per pixel and no row padding. */
  const START_INFO: VideoInfo := VideoInfo(Rgba, 320, 240, Fraction(0, 1), 320 * 240 * 4)

  /** The flow errors a pull can end with. */
  datatype FlowError = NotNegotiated | Error

  /** Why `set_caps` rejects a capability set. */
  datatype CapsError = UnsupportedCaps | InvalidVideoInfo
}
