/** The test-pattern source element: its settings, updated in place by
    `start`, `set_caps` and each pull, and the in-place painting of a frame. */
module Element {
  import opened Types
  import opened Pattern
  import opened Timing

  /** A pipeline buffer: the writable bytes of its video plane as the
      negotiated format maps them, the plane's row stride in bytes, and the
      metadata a pull stamps on it. */
  class Buffer {
    const plane: array<bv8>
    const stride: nat
    var pts: Option<nat>
    var dts: Option<nat>
    var offset: Option<nat>
    var offsetEnd: Option<nat>
    var duration: Option<nat>

    constructor (plane: array<bv8>, stride: nat)
      ensures this.plane == plane && this.stride == stride
      ensures pts == None && dts == None && offset == None && offsetEnd == None && duration == None
    {
      this.plane := plane;
      this.stride := stride;
      pts, dts, offset, offsetEnd, duration := None, None, None, None, None;
    }
  }

  /** The element. Its fields are the settings record that one lock guards in
      the element: the colours, the negotiated format, the bar's size, top row
      and speed, and the timing counters. */
  class TestPatternSrc {
    var foregroundColor: U32
    var backgroundColor: U32
    var info: Option<VideoInfo>
    var size: U32
    var offset: U32
    var speed: U32
    var accumFrames: nat
    var nFrames: nat
    var runningTime: nat
    var accumRtime: nat

    /** The timing counters. */
    function Timeline(): Counters
      reads this
    {
      Counters(accumRtime, accumFrames, nFrames, runningTime)
    }

    /** The negotiated framerate (0/1 before any format is known). */
    function Fps(): Fraction
      reads this
    {
      if info.Some? then info.value.fps else Fraction(0, 1)
    }

    /** The running time is always the scaled frame count of the current epoch. */
    ghost predicate Valid()
      reads this
    {
      Consistent(Timeline(), Fps())
    }

    /** Whether a frame with row stride `stride` can be painted without a
        division by zero, a slice past a row's end or a `u32` overflow. */
    predicate CanPaint(stride: nat)
      reads this
    {
      info.Some? && info.value.height > 0 && stride > 0 && 4 * info.value.width <= stride &&
      offset + size < U32_LIMIT && offset + speed < U32_LIMIT
    }

    /** The default settings. */
    constructor ()
      ensures Valid()
      ensures foregroundColor == DEFAULT_FOREGROUND_COLOR && backgroundColor == DEFAULT_BACKGROUND_COLOR
      ensures speed == DEFAULT_SPEED && size == DEFAULT_SIZE && offset == 0 && info == None
      ensures Timeline() == START_COUNTERS
    {
      foregroundColor := DEFAULT_FOREGROUND_COLOR;
      backgroundColor := DEFAULT_BACKGROUND_COLOR;
      speed := DEFAULT_SPEED;
      size := DEFAULT_SIZE;
      offset := 0;
      info := None;
      accumFrames, nFrames := 0, 0;
      runningTime, accumRtime := 0, 0;
    }

    /** Resets every counter and installs the working format. */
    method Start()
      modifies this
      ensures Valid()
      ensures Timeline() == START_COUNTERS && info == Some(START_INFO)
      ensures foregroundColor == old(foregroundColor) && backgroundColor == old(backgroundColor)
      ensures size == old(size) && offset == old(offset) && speed == old(speed)
    {
      runningTime := 0;
      nFrames := 0;
      accumFrames := 0;
      accumRtime := 0;
      info := Some(START_INFO);
    }

    /** Accepts a negotiated capability set. Anything other than raw video, or
        caps the video library cannot parse, is rejected and changes nothing.
        On success the format is replaced and the counters move to a new epoch
        by the overwriting transfer. */
    method SetCaps(caps: Caps) returns (r: Result<(), CapsError>)
      requires Valid()
      modifies this
      ensures Valid()
      ensures r == Err(UnsupportedCaps) <==> caps.name != RAW_VIDEO
      ensures r.Ok? <==> caps.name == RAW_VIDEO && caps.parsed.Some?
      ensures r.Err? ==> info == old(info) && Timeline() == old(Timeline())
      ensures r.Ok? ==> info == caps.parsed && Timeline() == TransferEpoch(old(Timeline()))
      ensures foregroundColor == old(foregroundColor) && backgroundColor == old(backgroundColor)
      ensures size == old(size) && offset == old(offset) && speed == old(speed)
    {
      if caps.name != RAW_VIDEO {
        return Err(UnsupportedCaps);
      }
      if caps.parsed.None? {
        return Err(InvalidVideoInfo);
      }
      info := caps.parsed;
      accumRtime := runningTime;
      accumFrames := nFrames;
      runningTime := 0;
      nFrames := 0;
      r := Ok(());
    }

    /** Paints a frame in place (see `PaintPlane`), then moves the bar down by
        `speed` rows, wrapping at the frame height. */
    method MakeImage(plane: array<bv8>, stride: nat)
      requires CanPaint(stride)
      modifies plane, this`offset
      ensures plane[..] == Painted(old(plane[..]), stride, info.value.width, old(offset), size)
      ensures offset == NextOffset(old(offset), speed, info.value.height) && offset < info.value.height
    {
      PaintPlane(plane, stride, info.value.width, offset, size);
      offset := (offset + speed) % info.value.height;
    }

    /** Paints the buffer unless the format is unknown. A buffer that cannot
        be mapped is left alone, and the fill still succeeds. */
    method FillImage(buf: Buffer, mapped: bool) returns (r: Result<(), FlowError>)
      requires info.Some? && buf.pts.Some?
      requires mapped && info.value.format != Unknown ==> CanPaint(buf.stride)
      modifies buf.plane, this`offset
      ensures r.Err? <==> info.value.format == Unknown
      ensures r.Err? ==> r.error == NotNegotiated
      ensures mapped && r.Ok? ==>
                buf.plane[..] == Painted(old(buf.plane[..]), buf.stride, info.value.width, old(offset), size) &&
                offset == NextOffset(old(offset), speed, info.value.height)
      ensures !(mapped && r.Ok?) ==> buf.plane[..] == old(buf.plane[..]) && offset == old(offset)
    {
      if info.value.format == Unknown {
        return Err(NotNegotiated);
      }
      if mapped {
        MakeImage(buf.plane, buf.stride);
      }
      r := Ok(());
    }

    /** Produces one buffer: stamps its timestamp, paints it, then stamps its
        sequence offsets and duration and advances the counters by one frame.
        An unknown format fails the pull before any counter moves. */
    method Fill(buf: Buffer, mapped: bool) returns (r: Result<(), FlowError>)
      requires Valid() && info.Some?
      requires info.value.format != Unknown ==> info.value.fps.numer > 0
      requires mapped && info.value.format != Unknown ==> CanPaint(buf.stride)
      modifies this, buf, buf.plane
      ensures Valid()
      ensures info == old(info) && foregroundColor == old(foregroundColor)
      ensures backgroundColor == old(backgroundColor) && size == old(size) && speed == old(speed)
      ensures buf.pts == Some(NextPts(old(Timeline())))
      ensures r.Err? <==> info.value.format == Unknown
      ensures r.Err? ==>
                r.error == NotNegotiated && Timeline() == old(Timeline()) && offset == old(offset) &&
                buf.plane[..] == old(buf.plane[..]) && buf.dts == old(buf.dts) && buf.offset == old(buf.offset) &&
                buf.offsetEnd == old(buf.offsetEnd) && buf.duration == old(buf.duration)
      ensures r.Ok? ==>
                var stamp := StampFor(old(Timeline()), info.value.fps);
                buf.pts == Some(stamp.pts) && buf.dts == None && buf.offset == Some(stamp.offset) &&
                buf.offsetEnd == Some(stamp.offsetEnd) && buf.duration == Some(stamp.duration) &&
                Timeline() == Advance(old(Timeline()), info.value.fps)
      ensures r.Ok? && mapped ==>
                buf.plane[..] == Painted(old(buf.plane[..]), buf.stride, info.value.width, old(offset), size) &&
                offset == NextOffset(old(offset), speed, info.value.height)
      ensures r.Ok? && !mapped ==> buf.plane[..] == old(buf.plane[..]) && offset == old(offset)
    {
      var fps := info.value.fps;
      var pts := accumRtime + runningTime;
      buf.pts := Some(pts);
      r := FillImage(buf, mapped);
      if r.Err? {
        return;
      }
      buf.dts := None;
      buf.offset := Some(accumFrames + nFrames);
      nFrames := nFrames + 1;
      buf.offsetEnd := Some(buf.offset.value + 1);
      var nextTime := Scale(nFrames, fps.denom * SECOND, fps.numer);
      RunningTimeMonotone(nFrames - 1, nFrames, fps);
      buf.duration := Some(nextTime - runningTime);
      runningTime := nextTime;
    }
  }

  /** Paints every whole row of `stride` bytes of the plane: bytes 0..2 of each
      of its `width` pixels become white when the row lies in the bar
      [top, top + size) and black otherwise. */
  method PaintPlane(plane: array<bv8>, stride: nat, width: nat, top: U32, size: U32)
    requires stride > 0 && 4 * width <= stride
    modifies plane
    ensures plane[..] == Painted(old(plane[..]), stride, width, top, size)
  {
    ghost var orig := plane[..];
    ghost var target := Painted(orig, stride, width, top, size);
    var idx, base := 0, 0;
    while base + stride <= plane.Length
      invariant base == RowStart(idx, stride) <= plane.Length
      invariant forall i :: 0 <= i < base ==> plane[i] == target[i]
      invariant forall i :: base <= i < plane.Length ==> plane[i] == orig[i]
      decreases plane.Length - base
    {
      var v := ChannelValue(idx, top, size);
      ghost var before := plane[..];
      PaintRow(plane, base, stride, width, v);
      forall i | base <= i < base + stride
        ensures plane[i] == target[i]
      {
        var c := i - base;
        PaintRowsAt(orig, 0, stride, width, top, size, idx, c);
        assert before[base + c] == orig[base + c];
        assert target[RowStart(idx, stride) + c] == if c < 4 * width && c % 4 != 3 then v else orig[base + c];
        assert plane[base + c] == if c < 4 * width && c % 4 != 3 then v else before[base + c];
      }
      idx, base := idx + 1, base + stride;
    }
    forall i | base <= i < plane.Length
      ensures plane[i] == target[i]
    {
      PaintRowsTrailing(orig, 0, stride, width, top, size, idx, i);
    }
  }

  /** Paints the row of `stride` bytes that starts at `base`: bytes 0..2 of each
      of its `width` four-byte pixels are set to `v`; every other byte keeps its value. */
  method PaintRow(plane: array<bv8>, base: nat, stride: nat, width: nat, v: bv8)
    requires 4 * width <= stride && base + stride <= plane.Length
    modifies plane
    ensures forall c :: 0 <= c < stride ==>
              plane[base + c] == if c < 4 * width && c % 4 != 3 then v else old(plane[base + c])
    ensures forall i :: 0 <= i < plane.Length && !(base <= i < base + stride) ==> plane[i] == old(plane[i])
  {
    var j := 0;
    while j < 4 * width
      invariant j <= 4 * width && j % 4 == 0
      invariant forall c :: 0 <= c < j ==> plane[base + c] == if c % 4 != 3 then v else old(plane[base + c])
      invariant forall i :: 0 <= i < plane.Length && !(base <= i < base + j) ==> plane[i] == old(plane[i])
    {
      plane[base + j] := v;
      plane[base + j + 1] := v;
      plane[base + j + 2] := v;
      j := j + 4;
    }
  }
}
