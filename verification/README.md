# Test-pattern video source: a Dafny model

This project models the core of a GStreamer push source written in Rust. The
element produces raw video frames in which a horizontal white bar moves down
over a black background. The model covers four things:

- the element's settings record, and how `start`, `set_caps` and each pull
  (`fill`) update it;
- the in-place painting of a frame's plane (`make_image`, `fill_image`);
- the timing counters that stamp each buffer with a timestamp, a sequence
  offset and a duration;
- the small decisions the element takes during negotiation: the alpha gate of
  `fixate`, the pool choice of `decide_allocation`, and what `alloc` allocates.

Layout:

- `types.dfy` (module `Types`): integer widths (`u32`), the video format
  descriptor, defaults and error types.
- `arith.dfy` (module `Arithmetic`): division and modulo facts used by the proofs.
- `pattern.dfy` (module `Pattern`): the painted plane as a function of the
  original bytes, row by row, and the bar's movement from frame to frame.
- `timing.dfy` (module `Timing`): the timing counters, the stamp of one
  buffer, epochs and runs of buffers across renegotiations.
- `negotiation.dfy` (module `Negotiation`): fixation, allocation and raw
  buffer allocation.
- `element.dfy` (module `Element`): the element as a class whose fields are
  the settings record, and a buffer class. The methods update these fields in
  place. Each frame is painted into an `array<bv8>` by a loop, proved equal to
  the `Pattern` specification.

Integer widths: the row index cast `idx as u32` and the `as u32` casts in
`decide_allocation` are written out with `AsU32` (keep the low 32 bits). The
`u32` arithmetic `offset + size`, `offset + speed` and `width * height * 4`
panics on overflow when Rust's overflow checks are on (debug builds) and wraps
modulo 2^32 when they are off (release builds). The wrap is not modelled:
callers must keep these values below 2^32. The 64-bit counters and clock times
are unbounded.

## Model

| member | source | states |
|---|---|---|
| Element.TestPatternSrc.constructor | src/testpattern/imp.rs:52-68 | The default settings: opaque white foreground, opaque black background, speed 5, bar size 50, offset 0, no format, all counters zero. |
| Element.TestPatternSrc.Start | src/testpattern/imp.rs:353-371 | Zeroes all four timing counters and installs RGBA 320x240 at 0/1 fps. Colours, bar size, offset and speed are unchanged. The timing invariant holds afterwards. |
| Element.TestPatternSrc.SetCaps | src/testpattern/imp.rs:300-318 | Fails exactly when the structure is not `video/x-raw` or the format cannot be parsed, and then changes nothing. On success it installs the parsed format and moves the counters by the overwriting epoch transfer (`accum := current`, current := 0). Nothing else changes, and the timing invariant is kept. |
| Element.TestPatternSrc.MakeImage | src/testpattern/imp.rs:77-106 | The plane becomes `Painted` of its old bytes with the bar at the old offset. The offset becomes `(offset + speed) % height`, so it is inside the frame afterwards. Only the plane and `offset` are modified. |
| Element.PaintPlane | src/testpattern/imp.rs:84-103 | The loop over whole `stride`-byte rows leaves the array equal to `Painted(old bytes)`. |
| Element.PaintRow | src/testpattern/imp.rs:89-102 | In one row, bytes 0..2 of each of the `width` pixels get the row's value. Byte 3, the padding and every byte outside the row keep their value. |
| Element.TestPatternSrc.FillImage | src/testpattern/imp.rs:108-124 | Fails with `NotNegotiated` exactly when the format is `Unknown`. If the buffer is mapped and the fill succeeds, the frame is painted and the bar advances. Otherwise the plane and the offset are untouched, and an unmappable buffer still gives `Ok`. |
| Element.TestPatternSrc.Fill | src/testpattern/imp.rs:445-476 | Always stamps `pts = accum_rtime + running_time`. An `Unknown` format fails with `NotNegotiated` and leaves counters, offset, plane and other stamps unchanged. Success stamps `dts` none, `offset = accum_frames + n_frames`, `offset_end = offset + 1` and `duration = new - old running time`, and advances the counters by one frame whether or not the buffer was mapped. |
| Pattern.PaintedChannel | src/testpattern/imp.rs:88-101 | In every whole row `row` of the painted plane, bytes 0..2 of each pixel are 0xFF when `offset <= row < offset + size` and 0x00 otherwise. |
| Pattern.PaintedKeepsPadding | src/testpattern/imp.rs:88-89 | In every whole row, byte 3 of each pixel and the padding from `4 * width` to `stride` are unchanged. |
| Pattern.PaintedKeepsTrailing | src/testpattern/imp.rs:88 | Bytes after the last whole `stride` row are unchanged. |
| Pattern.NextOffset | src/testpattern/imp.rs:104-105 | The bar's next top row is below the frame height. |
| Pattern.OffsetAfterIsModular | src/testpattern/imp.rs:104-105 | After `n > 0` frames the top row is `(offset + n * speed) % height`, and so below the height. |
| Pattern.ReducedOffset | src/testpattern/imp.rs:309 | The corrected renegotiation: the top row reduced into the new frame is below the new height and no larger than before, and a top row already inside the frame is kept. |
| Pattern.UnreducedResizeBlanksFrame | src/testpattern/imp.rs:300-309 | As the code renegotiates: when a smaller height `h <= offset` is installed, the top row stays at `offset`. Every colour channel of every row of the next frame is then black (no bar row), and the frame after jumps to `(offset + speed) % h`. Reducing the top row instead puts it below `h`. |
| Pattern.ReducedRunStaysInFrame | src/testpattern/imp.rs:104-105 | With the corrected renegotiation, the top row stays below the current frame height after any sequence of frames and renegotiations that starts inside the frame. |
| Timing.StampFor | src/testpattern/imp.rs:452-472 | A buffer's stamp: `pts` is the next timestamp, `offset` the next sequence number, `offset_end = offset + 1`. Old running time plus duration is the scaled count of frames including this one. |
| Timing.Advance | src/testpattern/imp.rs:459-473 | One more frame is counted and the sequence number grows by one. The running time is the scaled frame count (the invariant is re-established). The carried-over values are unchanged. |
| Timing.RunningTimeMonotone | src/testpattern/imp.rs:463-472 | The scaled running time never decreases with the frame count, so every duration is non-negative. |
| Timing.StampsChain | src/testpattern/imp.rs:452-473 | Within an epoch, the next buffer's `pts` is this buffer's `pts + duration`, and its offset is this buffer's `offset_end`. |
| Timing.AdvanceNCounts | src/testpattern/imp.rs:459-473 | `k` pulls count exactly `k` frames. The running time is then the scaled count and the carried-over values are unchanged. |
| Timing.DurationsTelescope | src/testpattern/imp.rs:463-473 | The durations of `k` consecutive buffers add up to the running time they cover. |
| Timing.ThirtyFramesOneSecond | src/testpattern/imp.rs:463-473 | At 30/1 fps, 30 buffers after an epoch start the running time is exactly 10^9 ns. |
| Timing.NumerFramesLastDenomSeconds | src/testpattern/imp.rs:463-470 | At `numer/denom` fps, `numer` frames last exactly `denom` seconds. |
| Timing.FirstBufferLasts | src/testpattern/imp.rs:463-472 | At no more than one frame per nanosecond, the first buffer of an epoch has a positive duration. |
| Timing.TransferEpoch | src/testpattern/imp.rs:311-315 | `set_caps` on the counters: the current epoch's counters become zero. |
| Timing.TransferEpochDropsCarry | src/testpattern/imp.rs:311-312 | After the overwriting transfer, the next timestamp and sequence offset fall back by exactly the amounts carried before it. |
| Timing.TransferEpochAdditive | src/testpattern/imp.rs:311-315 | The corrected transfer: the current epoch is zeroed and the next timestamp and sequence offset are preserved. |
| Timing.AdditiveRunContiguous | src/testpattern/imp.rs:311-315 | With the corrected transfer, any interleaving of pulls and renegotiations produces contiguous buffers. Each buffer starts where the previous one ended, and the first starts at the counters' next timestamp and offset. |
| Timing.OverwriteRunStamps | src/testpattern/imp.rs:311-315 | The exact stamps of three one-buffer epochs after `start`, using the code's overwriting transfer. |
| Timing.OverwriteRunRewinds | src/testpattern/imp.rs:311-312 | In that run, the third buffer repeats the second's timestamp and offset although the second lasts a positive time, so the run is not contiguous. The corrected transfer keeps the same run contiguous. |
| Negotiation.FixateStepFor | src/testpattern/imp.rs:325-328 | The caps are handed back unchanged exactly when the foreground's alpha byte is not 255, i.e. when the colour is below 0xFF000000. |
| Negotiation.ChoosePool | src/testpattern/imp.rs:382-393 | No proposals: a new video pool with the frame size, counts 0/0 and no update. Otherwise: proposal 0's pool (or a new one), min and max, with update. For a frame below 2^32 bytes the size is the larger of the frame size and the proposed size, so it is at least both and equal to one of them. For a larger frame the `as u32` cast truncates the size to the frame size modulo 2^32. |
| Negotiation.DecideAllocation | src/testpattern/imp.rs:382-410 | Fails exactly when the pool rejects its configuration. On success the pool is configured with the chosen size, counts and video-meta option. Entry 0 is replaced when updating, or the entry is appended to an empty list; the other proposals are kept. |
| Negotiation.SmallPoolGrowsToFrame | src/testpattern/imp.rs:386 | A proposed pool smaller than a frame is updated to exactly the frame size. |
| Negotiation.AllocSource | src/testpattern/imp.rs:429-441 | The buffer comes from the pool when there is one. Otherwise it is a raw buffer of exactly `width * height * 4` bytes, and a failed raw allocation is a flow error. |
| Negotiation.RawBufferHoldsFrame | src/testpattern/imp.rs:439 | A raw buffer of `width * height * 4` bytes is exactly `height` unpadded rows of `width` pixels. |

## Left out

- Property get/set dispatch, element metadata, pad templates and the type registration in `mod.rs` are framework glue. So is `constructed`. One quirk there is not modelled: the `size` property declares `DEFAULT_SPEED` as its default (imp.rs:175), while `constructed` sets `DEFAULT_SIZE` (imp.rs:236).
- The mutex around the settings: the class's fields are the settings, and each method runs with exclusive access.
- `fixate` beyond the alpha gate: fixing width, height and framerate to their nearest values, and `parent_fixate`, are library calls. `FixateStepFor` only says which branch is taken.
- `parent_decide_allocation`, the pool's own configuration checks (`accepted` is an input), and the query's video-meta lookup (`videoMeta` is an input) are not modelled. The caps copied into the pool configuration are not modelled either.
- Negotiation.AllocSource: a failure of `acquire_buffer` on the pool is not modelled; the pool case always yields a pool buffer.
- `create` (imp.rs:415-427), which calls `alloc` and then `fill` when the length is positive, is not modelled separately.
- Mapping a buffer as a video frame is the boolean `mapped`. `sync_values` and debug logging are left out.
- `gst_util_uint64_scale` is modelled as exact floor division `n * denom * 10^9 / numer` with `numer > 0`. Its 128-bit intermediate and saturation are not modelled. The 64-bit counters and clock times are unbounded integers, so their overflow is not modelled.
- Element.TestPatternSrc.Fill requires a negotiated format (`info` present) and, for a known format, a non-zero framerate numerator. The code unwraps `info` and would panic without one, and the scale divides by the numerator.
- Element.TestPatternSrc.MakeImage requires a non-zero height, `4 * width <= stride`, and `offset + size` and `offset + speed` below 2^32. A zero height or a short row panics in the code (modulo by zero, slice past the row). The `u32` additions panic with overflow checks on and wrap modulo 2^32 without them. That wrap is not modelled: for example, with `size = 0xFFFFFFFF` and offset 5, a release build computes `offset + size` as 4 and paints every row black.
- Negotiation.AllocSource requires `width * height * 4` below 2^32 when there is no pool. The code computes it in `u32`, which panics with overflow checks on and wraps without them; the wrap is not modelled.
- Element.TestPatternSrc.SetCaps assumes the caps have a first structure; the code unwraps it.
- The background colour is stored but never read by the painter, which always paints black outside the bar; the model keeps it as a field.
- Pattern.NextOffset: states only the bound; its value is tied to the frame count by `OffsetAfterIsModular`.
- Timing.TransferEpoch: states only that the new epoch is zeroed; what happens to the carried-over values is stated by `TransferEpochDropsCarry` and the run lemmas.

## Findings

| source | as written | input that shows it | evidently intended | confidence | as-written member | corrected member |
|---|---|---|---|---|---|---|
| src/testpattern/imp.rs:311-312 | `set_caps` overwrites `accum_rtime`/`accum_frames` with the current epoch's `running_time`/`n_frames` | after `start`, renegotiate to any rate with `0 < numer <= denom * 10^9`, then pull one buffer; do this three times. The third buffer repeats the second's timestamp and offset | add the current epoch to the accumulated values, so the timeline stays continuous across renegotiations | not executed | Timing.OverwriteRunRewinds | Timing.AdditiveRunContiguous |
| src/testpattern/imp.rs:309 | `set_caps` (and `start`, line 369) install a new format, and so a new frame height, but keep the bar's top row `offset` | a 480-row stream with the bar at row 300 is renegotiated to 240 rows: rows 300..349 are not in the frame, so the next frame is painted all black, and the bar then jumps to row (300 + 5) % 240 = 65 | reduce `offset` modulo the new height when a format is installed, so the top row is always inside the frame | not executed | Pattern.UnreducedResizeBlanksFrame | Pattern.ReducedRunStaysInFrame |

The element class follows the code as written: `SetCaps` uses the overwriting
`TransferEpoch`. The corrected transfer is `TransferEpochAdditive`, and
`Timing.Run` can replay any sequence of pulls and renegotiations under either
transfer. Likewise `SetCaps` and `Start` keep `offset` as the code does;
`Pattern.BarRun` replays frames and renegotiations with or without the
reduction `Pattern.ReducedOffset`, and `MakeImage` always leaves the top row
inside the frame.
