/** The frame generator: which bytes of a mapped video plane a paint writes,
    what it writes there, and how the bar's top row moves from frame to frame. */
module Pattern {
  import opened Types
  import opened Arithmetic

  /** Whether frame row `line` lies in the bar, i.e. in [offset, offset + size). */
  predicate InBar(line: nat, offset: U32, size: U32) {
    offset <= line < offset + size
  }

  /** The value a painted colour channel of row `row` receives: white inside the
      bar, black elsewhere. The row index is cast to `u32` before the test. */
  function ChannelValue(row: nat, offset: U32, size: U32): bv8 {
    if InBar(AsU32(row), offset, size) then 0xFF else 0x00
  }

  /** A row after painting its pixels with colour value `v`: the row's first
      `4 * width` bytes are `width` pixels of four bytes, of which bytes 0..2
      become `v`; byte 3 and the padding after the pixels keep their value. */
  function PaintLine(line: seq<bv8>, width: nat, v: bv8): (r: seq<bv8>)
    ensures |r| == |line|
  {
    seq(|line|, c requires 0 <= c < |line| => if c < 4 * width && c % 4 != 3 then v else line[c])
  }

  /** The bytes `s`, cut into whole rows of `stride` bytes numbered from `row`,
      after each row has been painted white inside the bar and black outside
      it. Bytes that do not fill a whole row keep their value. */
  function PaintRows(s: seq<bv8>, row: nat, stride: nat, width: nat, offset: U32, size: U32): (r: seq<bv8>)
    requires stride > 0
    ensures |r| == |s|
    decreases |s|
  {
    if |s| < stride then s
    else PaintLine(s[..stride], width, ChannelValue(row, offset, size)) + PaintRows(s[stride..], row + 1, stride, width, offset, size)
  }

  /** The plane `s` after one paint with the bar at `offset` and `size` rows tall. */
  function Painted(s: seq<bv8>, stride: nat, width: nat, offset: U32, size: U32): (r: seq<bv8>)
    requires stride > 0
    ensures |r| == |s|
  {
    PaintRows(s, 0, stride, width, offset, size)
  }

  /** The bar's top row for the next frame. */
  function NextOffset(offset: U32, speed: U32, height: nat): (r: U32)
    requires height > 0 && offset + speed < U32_LIMIT
    ensures r < height
  {
    (offset + speed) % height
  }

  /** The bar's top row after `n` frames, each painted with the same speed and height. */
  function OffsetAfter(offset: U32, speed: U32, height: nat, n: nat): U32
    requires height > 0 && offset + speed < U32_LIMIT && height + speed <= U32_LIMIT
    decreases n
  {
    if n == 0 then offset else OffsetAfter(NextOffset(offset, speed, height), speed, height, n - 1)
  }

  // ---------------------------------------------------------------------------
  // Painting row by row

  /** Where whole row `k` starts: `k` rows of `stride` bytes come before it. */
  function RowStart(k: nat, stride: nat): (r: nat)
    ensures r == k * stride
  {
    if k == 0 then 0 else RowStart(k - 1, stride) + stride
  }

  /** Byte `col` of whole row `k`: a colour channel gets the row's colour,
      every other byte keeps its value. */
  lemma {:induction false} PaintRowsAt(s: seq<bv8>, row: nat, stride: nat, width: nat, offset: U32, size: U32,
                                       k: nat, col: nat)
    requires stride > 0 && RowStart(k, stride) + stride <= |s| && col < stride
    ensures PaintRows(s, row, stride, width, offset, size)[RowStart(k, stride) + col]
            == if col < 4 * width && col % 4 != 3 then ChannelValue(row + k, offset, size) else s[RowStart(k, stride) + col]
    decreases k
  {
    var line := PaintLine(s[..stride], width, ChannelValue(row, offset, size));
    var rest := PaintRows(s[stride..], row + 1, stride, width, offset, size);
    assert PaintRows(s, row, stride, width, offset, size) == line + rest;
    if k > 0 {
      PaintRowsAt(s[stride..], row + 1, stride, width, offset, size, k - 1, col);
      assert (line + rest)[RowStart(k, stride) + col] == rest[RowStart(k - 1, stride) + col];
    } else {
      assert (line + rest)[col] == line[col];
    }
  }

  /** Bytes after the last whole row keep their value. */
  lemma {:induction false} PaintRowsTrailing(s: seq<bv8>, row: nat, stride: nat, width: nat, offset: U32, size: U32,
                                             k: nat, i: nat)
    requires stride > 0 && RowStart(k, stride) <= i < |s| < RowStart(k, stride) + stride
    ensures PaintRows(s, row, stride, width, offset, size)[i] == s[i]
    decreases k
  {
    if k > 0 {
      PaintRowsTrailing(s[stride..], row + 1, stride, width, offset, size, k - 1, i - stride);
    }
  }

  // ---------------------------------------------------------------------------
  // Properties of a paint

  /** Bytes 0..2 of every pixel of a whole row are white when the row lies in
      the bar and black otherwise. */
  lemma PaintedChannel(s: seq<bv8>, stride: nat, width: nat, offset: U32, size: U32, row: nat, col: nat)
    requires stride > 0 && row * stride + stride <= |s| && row < U32_LIMIT
    requires col < 4 * width && col < stride && col % 4 != 3
    ensures Painted(s, stride, width, offset, size)[row * stride + col]
            == if offset <= row < offset + size then 0xFF else 0x00
  {
    PaintRowsAt(s, 0, stride, width, offset, size, row, col);
    assert RowStart(row, stride) == row * stride;
  }

  /** In a whole row, byte 3 of every pixel and the padding between `4 * width`
      and `stride` keep their value. */
  lemma PaintedKeepsPadding(s: seq<bv8>, stride: nat, width: nat, offset: U32, size: U32, row: nat, col: nat)
    requires stride > 0 && row * stride + stride <= |s| && col < stride
    requires col >= 4 * width || col % 4 == 3
    ensures Painted(s, stride, width, offset, size)[row * stride + col] == s[row * stride + col]
  {
    PaintRowsAt(s, 0, stride, width, offset, size, row, col);
    assert RowStart(row, stride) == row * stride;
  }

  /** Bytes after the last whole row keep their value: when the plane holds `k`
      whole rows and a few bytes more, those bytes are untouched. */
  lemma PaintedKeepsTrailing(s: seq<bv8>, stride: nat, width: nat, offset: U32, size: U32, k: nat, i: nat)
    requires stride > 0 && k * stride <= i < |s| < k * stride + stride
    ensures Painted(s, stride, width, offset, size)[i] == s[i]
  {
    PaintRowsTrailing(s, 0, stride, width, offset, size, k, i);
  }

  /** After `n > 0` frames the bar's top row is `(offset + n * speed) mod height`. */
  lemma {:induction false} OffsetAfterIsModular(offset: U32, speed: U32, height: nat, n: nat)
    requires height > 0 && offset + speed < U32_LIMIT && height + speed <= U32_LIMIT
    ensures n > 0 ==> OffsetAfter(offset, speed, height, n) == (offset + n * speed) % height
    ensures n > 0 ==> OffsetAfter(offset, speed, height, n) < height
    decreases n
  {
    if n > 1 {
      OffsetAfterIsModular(NextOffset(offset, speed, height), speed, height, n - 1);
      ModStep(offset, speed, height, n - 1);
    }
  }

  // ---------------------------------------------------------------------------
  // The bar across renegotiations

  /** What happens to the bar between two frames: a frame is painted, or a new
      format with frame height `height` is installed. */
  datatype BarEvent = Frame | Resize(height: nat)

  /** Every installed height is positive and leaves room to add `speed`. */
  predicate Resizable(speed: U32, events: seq<BarEvent>) {
    forall i :: 0 <= i < |events| && events[i].Resize? ==> 0 < events[i].height && events[i].height + speed <= U32_LIMIT
  }

  /** The top row reduced into a frame of `height` rows. */
  function ReducedOffset(offset: U32, height: nat): (r: U32)
    requires height > 0
    ensures r < height && r <= offset
    ensures offset < height ==> r == offset
  {
    offset % height
  }

  /** The bar's top row and the frame height after `events`. A new format keeps
      the top row as it is, or, when `reduce` holds, reduces it into the new frame. */
  function BarRun(offset: U32, speed: U32, height: nat, events: seq<BarEvent>, reduce: bool): (U32, nat)
    requires height > 0 && height + speed <= U32_LIMIT && offset + speed < U32_LIMIT && Resizable(speed, events)
    decreases |events|
  {
    if events == [] then (offset, height)
    else
      assert Resizable(speed, events[1..]) by {
        forall i | 0 <= i < |events[1..]| && events[1..][i].Resize?
          ensures 0 < events[1..][i].height && events[1..][i].height + speed <= U32_LIMIT
        {
          assert events[1..][i] == events[i + 1];
        }
      }
      match events[0]
      case Frame => BarRun(NextOffset(offset, speed, height), speed, height, events[1..], reduce)
      case Resize(h) =>
        assert events[0].Resize?;
        BarRun(if reduce then ReducedOffset(offset, h) else offset, speed, h, events[1..], reduce)
  }

  /** As the code renegotiates: a new, smaller frame keeps a top row at or
      below its last row, so the next frame has no bar row at all (every colour
      channel of every row of the new frame is black), and the frame after it
      jumps to `(offset + speed) mod h`. Reducing the top row into the new frame
      keeps it inside. */
  lemma UnreducedResizeBlanksFrame(offset: U32, speed: U32, height: nat, h: nat, size: U32,
                                   s: seq<bv8>, stride: nat, width: nat, row: nat, col: nat)
    requires 0 < h <= offset < height && height + speed <= U32_LIMIT
    requires stride > 0 && row * stride + stride <= |s| && row < h
    requires col < 4 * width && col < stride && col % 4 != 3
    ensures Resizable(speed, [Resize(h)]) && Resizable(speed, [Resize(h), Frame])
    ensures BarRun(offset, speed, height, [Resize(h)], false) == (offset, h)
    ensures Painted(s, stride, width, offset, size)[row * stride + col] == 0x00
    ensures BarRun(offset, speed, height, [Resize(h), Frame], false).0 == (offset + speed) % h
    ensures BarRun(offset, speed, height, [Resize(h)], true).0 < h
  {
    PaintedChannel(s, stride, width, offset, size, row, col);
    assert [Resize(h), Frame][1..] == [Frame];
    assert [Frame][1..] == [];
  }

  /** With the top row reduced on every renegotiation, the bar's top row is
      inside the current frame after any sequence of frames and renegotiations. */
  lemma {:induction false} ReducedRunStaysInFrame(offset: U32, speed: U32, height: nat, events: seq<BarEvent>)
    requires height > 0 && height + speed <= U32_LIMIT && offset < height && Resizable(speed, events)
    ensures BarRun(offset, speed, height, events, true).0 < BarRun(offset, speed, height, events, true).1
    decreases |events|
  {
    if events != [] {
      assert Resizable(speed, events[1..]) by {
        forall i | 0 <= i < |events[1..]| && events[1..][i].Resize?
          ensures 0 < events[1..][i].height && events[1..][i].height + speed <= U32_LIMIT
        {
          assert events[1..][i] == events[i + 1];
        }
      }
      match events[0]
      case Frame =>
        ReducedRunStaysInFrame(NextOffset(offset, speed, height), speed, height, events[1..]);
      case Resize(h) =>
        assert events[0].Resize?;
        ReducedRunStaysInFrame(ReducedOffset(offset, h), speed, h, events[1..]);
    }
  }
}
