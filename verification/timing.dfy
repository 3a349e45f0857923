/** The timing accumulator: the counters the element keeps per negotiated
    epoch and across epochs, the stamp a produced buffer receives, and what a
    renegotiation does to the counters. */
module Timing {
  import opened Types
  import opened Arithmetic

  /** The timing part of the element's settings. `nFrames` and `runningTime`
      count the current epoch; `accumFrames` and `accumRtime` are what the
      previous renegotiation carried over. Times are in nanoseconds. */
  datatype Counters = Counters(accumRtime: nat, accumFrames: nat, nFrames: nat, runningTime: nat)

  /** The metadata a produced buffer carries (its decode timestamp is left unset). */
  datatype Stamp = Stamp(pts: nat, offset: nat, offsetEnd: nat, duration: nat)

  /** The counters right after `start`. */
  const START_COUNTERS: Counters := Counters(0, 0, 0, 0)

  /** `val * num / denom`, rounded down. */
  function Scale(val: nat, num: nat, denom: nat): nat
    requires denom > 0
  {
    val * num / denom
  }

  /** The running time at the end of the `n`-th frame of an epoch at framerate `fps`. */
  function RunningTimeAt(n: nat, fps: Fraction): nat
    requires fps.numer > 0
  {
    Scale(n, fps.denom * SECOND, fps.numer)
  }

  /** The running time is the scaled frame count of the epoch (zero before its first frame). */
  predicate Consistent(c: Counters, fps: Fraction) {
    if c.nFrames == 0 then c.runningTime == 0
    else fps.numer > 0 && c.runningTime == RunningTimeAt(c.nFrames, fps)
  }

  /** The presentation timestamp the next buffer will receive. */
  function NextPts(c: Counters): nat {
    c.accumRtime + c.runningTime
  }

  /** The sequence offset the next buffer will receive. */
  function NextSeq(c: Counters): nat {
    c.accumFrames + c.nFrames
  }

  /** More frames never mean less running time. */
  lemma RunningTimeMonotone(m: nat, n: nat, fps: Fraction)
    requires fps.numer > 0 && m <= n
    ensures RunningTimeAt(m, fps) <= RunningTimeAt(n, fps)
  {
    var k := fps.denom * SECOND;
    assert m * k <= n * k;
    DivMonotone(m * k, n * k, fps.numer);
  }

  /** The stamp of the buffer produced from counters `c`. */
  function StampFor(c: Counters, fps: Fraction): (s: Stamp)
    requires fps.numer > 0 && Consistent(c, fps)
    ensures s.pts == NextPts(c) && s.offset == NextSeq(c) && s.offsetEnd == s.offset + 1
    ensures c.runningTime + s.duration == RunningTimeAt(c.nFrames + 1, fps)
  {
    var next := RunningTimeAt(c.nFrames + 1, fps);
    RunningTimeMonotone(c.nFrames, c.nFrames + 1, fps);
    Stamp(c.accumRtime + c.runningTime, c.accumFrames + c.nFrames, c.accumFrames + c.nFrames + 1,
          next - c.runningTime)
  }

  /** The counters after one buffer has been produced. */
  function Advance(c: Counters, fps: Fraction): (r: Counters)
    requires fps.numer > 0
    ensures Consistent(r, fps)
    ensures r.nFrames == c.nFrames + 1 && NextSeq(r) == NextSeq(c) + 1
    ensures r.accumRtime == c.accumRtime && r.accumFrames == c.accumFrames
  {
    c.(nFrames := c.nFrames + 1, runningTime := RunningTimeAt(c.nFrames + 1, fps))
  }

  /** What `set_caps` does to the counters: the accumulated values are
      OVERWRITTEN with the current epoch's, then a new epoch starts. */
  function TransferEpoch(c: Counters): (r: Counters)
    ensures r.nFrames == 0 && r.runningTime == 0
  {
    Counters(c.runningTime, c.nFrames, 0, 0)
  }

  /** The overwriting transfer keeps only the current epoch's time and frames:
      the next timestamp and sequence offset fall back by exactly what had
      been carried over before. */
  lemma TransferEpochDropsCarry(c: Counters)
    ensures NextPts(TransferEpoch(c)) + c.accumRtime == NextPts(c)
    ensures NextSeq(TransferEpoch(c)) + c.accumFrames == NextSeq(c)
  {
  }

  /** The transfer that keeps the global timeline: the current epoch is ADDED
      to what was accumulated. */
  function TransferEpochAdditive(c: Counters): (r: Counters)
    ensures r.nFrames == 0 && r.runningTime == 0
    ensures NextPts(r) == NextPts(c) && NextSeq(r) == NextSeq(c)
  {
    Counters(c.accumRtime + c.runningTime, c.accumFrames + c.nFrames, 0, 0)
  }

  /** Consecutive buffers of one epoch are contiguous: each starts where the
      previous one ends, in time and in sequence offset. */
  lemma StampsChain(c: Counters, fps: Fraction)
    requires fps.numer > 0 && Consistent(c, fps)
    ensures StampFor(Advance(c, fps), fps).pts == StampFor(c, fps).pts + StampFor(c, fps).duration
    ensures StampFor(Advance(c, fps), fps).offset == StampFor(c, fps).offsetEnd
  {
  }

  // ---------------------------------------------------------------------------
  // Runs of buffers within one epoch

  /** The counters after `k` buffers. */
  function AdvanceN(c: Counters, fps: Fraction, k: nat): Counters
    requires fps.numer > 0
    decreases k
  {
    if k == 0 then c else AdvanceN(Advance(c, fps), fps, k - 1)
  }

  /** The stamps of `k` consecutive buffers. */
  function Stamps(c: Counters, fps: Fraction, k: nat): seq<Stamp>
    requires fps.numer > 0 && Consistent(c, fps)
    decreases k
  {
    if k == 0 then [] else [StampFor(c, fps)] + Stamps(Advance(c, fps), fps, k - 1)
  }

  function TotalDuration(stamps: seq<Stamp>): nat {
    if stamps == [] then 0 else stamps[0].duration + TotalDuration(stamps[1..])
  }

  /** After `k` more buffers the epoch has counted `k` more frames and its
      running time is the scaled frame count; nothing carried over changes. */
  lemma {:induction false} AdvanceNCounts(c: Counters, fps: Fraction, k: nat)
    requires fps.numer > 0
    ensures AdvanceN(c, fps, k).accumRtime == c.accumRtime
    ensures AdvanceN(c, fps, k).accumFrames == c.accumFrames
    ensures AdvanceN(c, fps, k).nFrames == c.nFrames + k
    ensures k > 0 ==> AdvanceN(c, fps, k).runningTime == RunningTimeAt(c.nFrames + k, fps)
    decreases k
  {
    if k > 0 {
      AdvanceNCounts(Advance(c, fps), fps, k - 1);
    }
  }

  /** The durations of `k` consecutive buffers add up to the running time they
      cover, so the epoch's running time is exactly the sum of its durations. */
  lemma {:induction false} DurationsTelescope(c: Counters, fps: Fraction, k: nat)
    requires fps.numer > 0 && Consistent(c, fps)
    ensures |Stamps(c, fps, k)| == k
    ensures c.runningTime + TotalDuration(Stamps(c, fps, k)) == RunningTimeAt(c.nFrames + k, fps)
    decreases k
  {
    if k == 0 {
      assert c.nFrames == 0 ==> RunningTimeAt(0, fps) == 0;
    } else {
      var s := Stamps(c, fps, k);
      DurationsTelescope(Advance(c, fps), fps, k - 1);
      assert s[1..] == Stamps(Advance(c, fps), fps, k - 1);
    }
  }

  /** At 30/1 frames per second, thirty buffers after an epoch start the
      running time is exactly one second. */
  lemma ThirtyFramesOneSecond(c: Counters)
    requires c.nFrames == 0 && c.runningTime == 0
    ensures AdvanceN(c, Fraction(30, 1), 30).runningTime == SECOND
    ensures AdvanceN(c, Fraction(30, 1), 30).accumRtime == c.accumRtime
  {
    AdvanceNCounts(c, Fraction(30, 1), 30);
  }

  /** More generally, `numer` buffers at `numer/denom` frames per second last
      exactly `denom` seconds. */
  lemma NumerFramesLastDenomSeconds(fps: Fraction)
    requires fps.numer > 0
    ensures RunningTimeAt(fps.numer, fps) == fps.denom * SECOND
  {
    var k := fps.denom * SECOND;
    assert fps.numer * k == k * fps.numer;
    DivExact(k * fps.numer, k, fps.numer);
  }

  // ---------------------------------------------------------------------------
  // Runs across renegotiations

  /** What happens between two buffers: one more buffer is produced, or the
      format is renegotiated to framerate `fps`. */
  datatype Event = Produce | Renegotiate(fps: Fraction)

  /** Every buffer of `events` is produced under a framerate with a non-zero numerator. */
  predicate Runnable(fps: Fraction, events: seq<Event>)
    decreases |events|
  {
    events == [] ||
    match events[0]
    case Produce => fps.numer > 0 && Runnable(fps, events[1..])
    case Renegotiate(f) => Runnable(f, events[1..])
  }

  function Transfer(c: Counters, additive: bool): Counters {
    if additive then TransferEpochAdditive(c) else TransferEpoch(c)
  }

  /** The stamps of the buffers produced by `events`, starting from counters `c`
      at framerate `fps`, with the overwriting or the additive epoch transfer. */
  function Run(c: Counters, fps: Fraction, events: seq<Event>, additive: bool): seq<Stamp>
    requires Consistent(c, fps) && Runnable(fps, events)
    decreases |events|
  {
    if events == [] then []
    else match events[0]
      case Produce => [StampFor(c, fps)] + Run(Advance(c, fps), fps, events[1..], additive)
      case Renegotiate(f) => Run(Transfer(c, additive), f, events[1..], additive)
  }

  /** Buffer `b` starts where buffer `a` ended, in time and in sequence offset. */
  predicate Follows(a: Stamp, b: Stamp) {
    b.pts == a.pts + a.duration && b.offset == a.offsetEnd
  }

  /** Each buffer starts where the previous one ended. */
  predicate Contiguous(stamps: seq<Stamp>) {
    forall i, j :: 0 <= i < |stamps| && j == i + 1 && j < |stamps| ==> Follows(stamps[i], stamps[j])
  }

  /** With the additive transfer the global timeline is continuous across any
      number of renegotiations: the buffers form one contiguous sequence that
      starts at the counters' next timestamp and offset. */
  lemma {:induction false} AdditiveRunContiguous(c: Counters, fps: Fraction, events: seq<Event>)
    requires Consistent(c, fps) && Runnable(fps, events)
    ensures Contiguous(Run(c, fps, events, true))
    ensures |Run(c, fps, events, true)| > 0 ==>
              Run(c, fps, events, true)[0].pts == NextPts(c) && Run(c, fps, events, true)[0].offset == NextSeq(c)
    decreases |events|
  {
    if events != [] {
      match events[0]
      case Produce =>
        AdditiveRunContiguous(Advance(c, fps), fps, events[1..]);
        var rest := Run(Advance(c, fps), fps, events[1..], true);
        var s := Run(c, fps, events, true);
        assert s == [StampFor(c, fps)] + rest;
        forall i, j | 0 <= i < |s| && j == i + 1 && j < |s|
          ensures Follows(s[i], s[j])
        {
          if i == 0 {
            assert s[1] == rest[0];
          } else {
            assert s[i] == rest[i - 1] && s[j] == rest[j - 1];
          }
        }
      case Renegotiate(f) =>
        AdditiveRunContiguous(Transfer(c, true), f, events[1..]);
    }
  }

  /** A renegotiation followed by one buffer. */
  lemma RunOneBufferEpoch(c: Counters, f: Fraction, fps: Fraction, rest: seq<Event>, additive: bool)
    requires Consistent(c, f) && fps.numer > 0 && Runnable(fps, rest)
    ensures Runnable(f, [Renegotiate(fps), Produce] + rest)
    ensures Run(c, f, [Renegotiate(fps), Produce] + rest, additive)
            == [StampFor(Transfer(c, additive), fps)] + Run(Advance(Transfer(c, additive), fps), fps, rest, additive)
  {
    var e := [Renegotiate(fps), Produce] + rest;
    assert e[1..] == [Produce] + rest;
    assert e[1..][1..] == rest;
  }

  /** Three epochs of one buffer each, all renegotiated to framerate `fps`. */
  function ThreeOneBufferEpochs(fps: Fraction): seq<Event> {
    [Renegotiate(fps), Produce, Renegotiate(fps), Produce, Renegotiate(fps), Produce]
  }

  /** The first buffer of an epoch at `fps` lasts a positive time when at most
      one frame per nanosecond is produced. */
  lemma FirstBufferLasts(fps: Fraction)
    requires 0 < fps.numer <= fps.denom * SECOND
    ensures RunningTimeAt(1, fps) > 0
  {
    assert RunningTimeAt(1, fps) == fps.denom * SECOND / fps.numer;
    DivMonotone(fps.numer, fps.denom * SECOND, fps.numer);
    DivExact(fps.numer, 1, fps.numer);
  }

  /** The stamps of three one-buffer epochs after `start`, transferred as the code does. */
  lemma OverwriteRunStamps(fps: Fraction)
    requires fps.numer > 0
    ensures Runnable(START_INFO.fps, ThreeOneBufferEpochs(fps))
    ensures var t := RunningTimeAt(1, fps);
            Run(START_COUNTERS, START_INFO.fps, ThreeOneBufferEpochs(fps), false)
            == [Stamp(0, 0, 1, t), Stamp(t, 1, 2, t), Stamp(t, 1, 2, t)]
  {
    var e3 := ThreeOneBufferEpochs(fps);
    var e2, e1 := e3[2..], e3[4..];
    var t := RunningTimeAt(1, fps);
    var c1 := Counters(0, 0, 1, t);
    var c2 := Counters(t, 1, 1, t);
    assert e1 == [Renegotiate(fps), Produce] + [];
    assert e2 == [Renegotiate(fps), Produce] + e1;
    assert e3 == [Renegotiate(fps), Produce] + e2;
    RunOneBufferEpoch(c2, fps, fps, [], false);
    var r1 := Run(c2, fps, e1, false);
    assert r1 == [Stamp(t, 1, 2, t)];
    assert Advance(TransferEpoch(c1), fps) == c2;
    RunOneBufferEpoch(c1, fps, fps, e1, false);
    var r2 := Run(c1, fps, e2, false);
    assert r2 == [Stamp(t, 1, 2, t)] + r1;
    assert Advance(TransferEpoch(START_COUNTERS), fps) == c1;
    RunOneBufferEpoch(START_COUNTERS, START_INFO.fps, fps, e2, false);
  }

  /** Three one-buffer epochs after `start`, transferred as the code does: the
      third buffer repeats the second one's timestamp and sequence offset
      instead of following it, although the second buffer lasts a positive
      time. The additive transfer keeps the same run contiguous. */
  lemma OverwriteRunRewinds(fps: Fraction)
    requires 0 < fps.numer <= fps.denom * SECOND
    ensures Runnable(START_INFO.fps, ThreeOneBufferEpochs(fps))
    ensures var s := Run(START_COUNTERS, START_INFO.fps, ThreeOneBufferEpochs(fps), false);
            |s| == 3 && s[2].pts == s[1].pts && s[2].offset == s[1].offset && s[1].duration > 0
            && !Contiguous(s)
    ensures Contiguous(Run(START_COUNTERS, START_INFO.fps, ThreeOneBufferEpochs(fps), true))
  {
    OverwriteRunStamps(fps);
    var s := Run(START_COUNTERS, START_INFO.fps, ThreeOneBufferEpochs(fps), false);
    assert !Follows(s[1], s[2]) by {
      FirstBufferLasts(fps);
    }
    AdditiveRunContiguous(START_COUNTERS, START_INFO.fps, ThreeOneBufferEpochs(fps));
  }
}
