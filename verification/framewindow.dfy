/** The sliding frame window and the blend step of `processVideo`
    (resampler.py). A decoded frame is represented by its position in the
    source video, so a window is a sequence of source indices and a blended
    frame records which sources and weights it combines. */
module FrameWindow {
  import opened Resolution

  function Max(a: int, b: int): int {
    if a >= b then a else b
  }

  /** Element type of the array `blend` returns. */
  datatype DType = UInt8 | Float64

  /** The pixels of a blended frame: the weighted sum of the listed source
      frames (index 0 is the oldest), or an all-zero array of the given shape. */
  datatype Pixels =
    | WeightedSum(sources: seq<nat>, weights: seq<real>)
    | ZeroFill(shape: seq<int>)

  datatype BlendedFrame = BlendedFrame(pixels: Pixels, dtype: DType)

  /** Shape of `np.asarray(imgs)` for frames of size `size`: four axes
      (frame, row, column, channel), or the one-axis shape `(0,)` when the
      list is empty. */
  function StackShape(frames: seq<nat>, size: Res): (shape: seq<int>)
    ensures |frames| > 0 ==> |shape| == 4 && shape[0] == |frames| && shape[3] == 3
    ensures |frames| == 0 ==> shape == [0]
  {
    if |frames| == 0 then [0] else [|frames|, size.height, size.width, 3]
  }

  /** numpy broadcasting on one axis: lengths `n` and `m` combine when they
      are equal or one of them is 1. */
  predicate Broadcastable(n: nat, m: nat) {
    n == m || n == 1 || m == 1
  }

  /** The common length of two broadcastable axes: the other length when
      one is 1, which may be 0. */
  function BroadcastLength(n: nat, m: nat): nat {
    if n == 1 then m else n
  }

  /** `s` stretched to `len` entries: unchanged when it already has `len`,
      otherwise its single entry repeated. */
  function Stretch<T>(s: seq<T>, len: nat): (t: seq<T>)
    requires |s| == len || |s| == 1
    ensures |t| == len
    ensures forall i :: 0 <= i < len ==> t[i] == s[if |s| == 1 then 0 else i]
  {
    if |s| == len then s else seq(len, _ => s[0])
  }

  /** `blend(imgs, weights)`: `einsum("ijkl,i->jkl")` needs a four-axis stack
      whose frame axis broadcasts against the weights; the contraction then
      pairs the `i`-th (stretched) frame with the `i`-th (stretched) weight
      and is cast to uint8. Otherwise numpy raises `ValueError` and the
      function returns zeros shaped like the stack, left as float64. */
  function Blend(frames: seq<nat>, weights: seq<real>, size: Res): (r: BlendedFrame)
    ensures r.pixels.WeightedSum? <==> |frames| > 0 && Broadcastable(|frames|, |weights|)
    ensures r.pixels.WeightedSum? ==>
      var len := BroadcastLength(|frames|, |weights|);
      && r.dtype == UInt8
      && |r.pixels.sources| == len && |r.pixels.weights| == len
      && (forall i :: 0 <= i < len ==> r.pixels.sources[i] == frames[if |frames| == 1 then 0 else i])
      && (forall i :: 0 <= i < len ==> r.pixels.weights[i] == weights[if |weights| == 1 then 0 else i])
    ensures 0 < |frames| == |weights| ==>
      r == BlendedFrame(WeightedSum(frames, weights), UInt8)
    ensures r.pixels.ZeroFill? ==>
      r.pixels.shape == StackShape(frames, size) && r.dtype == Float64
  {
    if 0 < |frames| && Broadcastable(|frames|, |weights|) then
      var len := BroadcastLength(|frames|, |weights|);
      BlendedFrame(WeightedSum(Stretch(frames, len), Stretch(weights, len)), UInt8)
    else BlendedFrame(ZeroFill(StackShape(frames, size)), Float64)
  }

  /** A single weight scales every frame of the stack alike. */
  lemma OneWeightScalesAll(frames: seq<nat>, w: real, size: Res)
    requires |frames| > 0
    ensures Blend(frames, [w], size)
      == BlendedFrame(WeightedSum(frames, seq(|frames|, _ => w)), UInt8)
  {
  }

  /** A single frame is weighted by every weight; with no weights the sum is
      empty, a uint8 frame of zeros. */
  lemma OneFrameTakesAllWeights(f: nat, weights: seq<real>, size: Res)
    ensures Blend([f], weights, size)
      == BlendedFrame(WeightedSum(seq(|weights|, _ => f), weights), UInt8)
  {
  }

  /** Two or more frames against a different number of weights, none of
      them one, is numpy's `ValueError`: float zeros shaped like the stack. */
  lemma MismatchFallsBack(frames: seq<nat>, weights: seq<real>, size: Res)
    requires 2 <= |frames| && |weights| != |frames| && |weights| != 1
    ensures Blend(frames, weights, size)
      == BlendedFrame(ZeroFill([|frames|, size.height, size.width, 3]), Float64)
  {
  }

  /** Source frames `start .. start+count-1`, in decoding order. */
  function Frames(start: nat, count: nat): (w: seq<nat>)
    ensures |w| == count
    ensures forall i :: 0 <= i < count ==> w[i] == start + i
  {
    seq(count, i requires 0 <= i < count => start + i)
  }

  /** `del imgs[:ratio]`: the oldest `ratio` frames leave the window (all of
      them when there are fewer). */
  function Evict(window: seq<nat>, ratio: nat): (w: seq<nat>)
    ensures |w| == Max(|window| - ratio, 0)
    ensures forall i :: 0 <= i < |w| ==> w[i] == window[i + |window| - |w|]
  {
    if |window| <= ratio then [] else window[ratio..]
  }

  /** The window `blend` sees for output frame `k`, with `b` the blend
      window size and `r` the frame-rate ratio: the first `b` frames for
      output 0; afterwards the last `max(b, r)` frames read so far. */
  function WindowBefore(k: nat, b: int, r: nat): seq<nat> {
    if k == 0 then Frames(0, Max(b, 0))
    else if b >= r then Frames(k * r, b)
    else Frames(Max(b, 0) + (k - 1) * r, r)
  }

  lemma {:induction false} FramesSnoc(start: nat, count: nat)
    ensures Frames(start, count) + [start + count] == Frames(start, count + 1)
  {
  }

  lemma {:induction false} EvictFrames(start: nat, count: nat, ratio: nat)
    ensures ratio <= count ==> Evict(Frames(start, count), ratio) == Frames(start + ratio, count - ratio)
    ensures ratio > count ==> Evict(Frames(start, count), ratio) == []
  {
  }

  lemma {:induction false} FramesConcat(start: nat, m: nat, n: nat)
    ensures Frames(start, m) + Frames(start + m, n) == Frames(start, m + n)
  {
    var lhs := Frames(start, m) + Frames(start + m, n);
    forall i | 0 <= i < m + n
      ensures lhs[i] == start + i
    {
      if i >= m {
        assert lhs[i] == Frames(start + m, n)[i - m];
      }
    }
  }

  lemma MulSucc(k: nat, r: nat)
    ensures (k + 1) * r == k * r + r
  {
  }

  /** The window of the next output is the current one with its oldest `r`
      frames dropped and the next `r` unread frames appended. */
  lemma WindowStep(k: nat, b: int, r: nat)
    requires r >= 1
    ensures WindowBefore(k + 1, b, r)
      == Evict(WindowBefore(k, b, r), r) + Frames(Max(b, 0) + k * r, r)
  {
    if b >= r {
      assert Max(b, 0) == b;
      WideStep(k, b, r);
    } else if k == 0 {
      FirstStep(b, r);
    } else {
      NarrowStep(k, b, r);
    }
  }

  /** With `b >= r` the window slides by `r` and keeps `b` frames. */
  lemma WideStep(k: nat, b: int, r: nat)
    requires 1 <= r <= b
    ensures WindowBefore(k + 1, b, r) == Evict(WindowBefore(k, b, r), r) + Frames(b + k * r, r)
  {
    var kr := k * r;
    assert WindowBefore(k, b, r) == Frames(kr, b);
    assert WindowBefore(k + 1, b, r) == Frames(kr + r, b) by {
      MulSucc(k, r);
    }
    assert Evict(Frames(kr, b), r) == Frames(kr + r, b - r) by {
      EvictFrames(kr, b, r);
    }
    assert Frames(kr + r, b - r) + Frames(b + kr, r) == Frames(kr + r, b) by {
      FramesConcat(kr + r, b - r, r);
      assert kr + r + (b - r) == b + kr;
    }
  }

  /** With `b < r` the first window is dropped whole. */
  lemma FirstStep(b: int, r: nat)
    requires b < r
    ensures WindowBefore(1, b, r) == Evict(WindowBefore(0, b, r), r) + Frames(Max(b, 0) + 0 * r, r)
  {
    assert Evict(WindowBefore(0, b, r), r) == [] by {
      EvictFrames(0, Max(b, 0), r);
    }
    assert Max(b, 0) + 0 * r == Max(b, 0) + (1 - 1) * r;
  }

  /** With `b < r` every window after the first holds the `r` frames read
      for it. */
  lemma NarrowStep(k: nat, b: int, r: nat)
    requires b < r && k >= 1
    ensures WindowBefore(k + 1, b, r)
      == Evict(WindowBefore(k, b, r), r) + Frames(Max(b, 0) + k * r, r)
  {
    var start := Max(b, 0) + (k - 1) * r;
    EvictFrames(start, r, r);
    MulSucc(k - 1, r);
    assert start + r == Max(b, 0) + k * r;
  }

  /** Reads `count` frames from the source, starting at position `next`,
      appending each to the window (`for _ in range(count): imgs.append(read())`). */
  method Admit(window: seq<nat>, next: nat, count: nat) returns (w: seq<nat>, after: nat)
    ensures w == window + Frames(next, count)
    ensures after == next + count
  {
    w := window;
    after := next;
    var j := 0;
    while j < count
      invariant 0 <= j <= count
      invariant after == next + j
      invariant w == window + Frames(next, j)
    {
      FramesSnoc(next, j);
      w := w + [after];
      after := after + 1;
      j := j + 1;
    }
  }

  /** One pass of the streaming loop, stated on the loop's own variables. */
  lemma AdvanceWindow(i: nat, b: int, r: nat, window: seq<nat>, consumed: nat)
    requires i >= 1 && r >= 1
    requires window == Evict(WindowBefore(i - 1, b, r), r)
    requires consumed == Max(b, 0) + (i - 1) * r
    ensures window + Frames(consumed, r) == WindowBefore(i, b, r)
    ensures consumed + r == Max(b, 0) + i * r
  {
    var k := i - 1;
    WindowStep(k, b, r);
    assert k + 1 == i;
    assert k * r + r == i * r by {
      assert (k + 1) * r == k * r + r;
    }
  }

  /** Output `k` blends the window defined for `k`, for every `k` so far. */
  predicate BlendsInOrder(out: seq<BlendedFrame>, b: int, r: nat, weights: seq<real>, size: Res) {
    forall k :: 0 <= k < |out| ==> out[k] == Blend(WindowBefore(k, b, r), weights, size)
  }

  lemma BlendsSnoc(out: seq<BlendedFrame>, b: int, r: nat, weights: seq<real>, size: Res)
    requires BlendsInOrder(out, b, r, weights, size)
    ensures BlendsInOrder(out + [Blend(WindowBefore(|out|, b, r), weights, size)], b, r, weights, size)
  {
  }

  /** The blend-and-slide loop of `processVideo` for `n` output frames: fill
      `b` frames, blend, drop the oldest `r`; then `n-1` times append `r`
      frames, blend, drop the oldest `r`. Returns the blended frames in
      output order and the number of frames read from the source. */
  method SlideWindow(b: int, r: int, n: int, weights: seq<real>, size: Res)
    returns (out: seq<BlendedFrame>, consumed: nat)
    requires r >= 1
    ensures |out| == Max(n, 1)
    ensures consumed == Max(b, 0) + (|out| - 1) * r
    ensures forall k :: 0 <= k < |out| ==> out[k] == Blend(WindowBefore(k, b, r), weights, size)
  {
    var window;
    window, consumed := Admit([], 0, Max(b, 0));
    assert window == WindowBefore(0, b, r);
    out := [Blend(window, weights, size)];
    window := Evict(window, r);
    var i := 1;
    while i < n
      invariant 1 <= i <= Max(n, 1)
      invariant |out| == i
      invariant consumed == Max(b, 0) + (i - 1) * r
      invariant window == Evict(WindowBefore(i - 1, b, r), r)
      invariant BlendsInOrder(out, b, r, weights, size)
    {
      AdvanceWindow(i, b, r, window, consumed);
      window, consumed := Admit(window, consumed, r);
      BlendsSnoc(out, b, r, weights, size);
      out := out + [Blend(window, weights, size)];
      window := Evict(window, r);
      i := i + 1;
    }
  }

  /** With `b >= r` every blend sees exactly `b` frames, namely source frames
      `k*r .. k*r+b-1` in order, and consecutive windows overlap in `b - r`
      frames. */
  lemma WindowCoversRange(k: nat, b: int, r: nat)
    requires 1 <= r <= b
    ensures WindowBefore(k, b, r) == Frames(k * r, b)
    ensures WindowBefore(k + 1, b, r)[..b - r] == WindowBefore(k, b, r)[r..]
  {
    assert (k + 1) * r == k * r + r;
  }

  /** With a blend window of `b` weights, `b` neither 1 nor `r - 1 = 0`, and
      every window after the first holding `r > b` frames, every output after
      the first is the float zero array shaped `(r, height, width, 3)`. */
  lemma ShortWindowBlacksOut(k: nat, b: int, r: nat, weights: seq<real>, size: Res)
    requires |weights| == b && k >= 1
    requires (b == 0 && r >= 2) || 2 <= b < r
    ensures Blend(WindowBefore(k, b, r), weights, size)
      == BlendedFrame(ZeroFill([r, size.height, size.width, 3]), Float64)
  {
    MismatchFallsBack(WindowBefore(k, b, r), weights, size);
  }

  /** A one-frame blend window (`b == 1 < r`): after the first output the
      single weight is broadcast over all `r` frames of the window. */
  lemma SingleWeightSpreads(k: nat, r: nat, w: real, size: Res)
    requires 1 < r && k >= 1
    ensures Blend(WindowBefore(k, 1, r), [w], size)
      == BlendedFrame(WeightedSum(Frames(1 + (k - 1) * r, r), seq(r, _ => w)), UInt8)
  {
    OneWeightScalesAll(WindowBefore(k, 1, r), w, size);
  }

  /** An empty blend window at ratio 1: the first output is the float zero
      array of shape `(0,)`, every later one the empty uint8 sum over the
      single frame read for it. */
  lemma EmptyWindowAtRatioOne(k: nat, size: Res)
    ensures k == 0 ==> Blend(WindowBefore(k, 0, 1), [], size) == BlendedFrame(ZeroFill([0]), Float64)
    ensures k >= 1 ==> Blend(WindowBefore(k, 0, 1), [], size) == BlendedFrame(WeightedSum([], []), UInt8)
  {
    if k >= 1 {
      OneFrameTakesAllWeights(k - 1, [], size);
    }
  }

  /** With a full-range window, one weight per frame, each output is the
      weighted sum of its own `b` consecutive source frames. */
  lemma FullWindowBlends(k: nat, b: int, r: nat, weights: seq<real>, size: Res)
    requires 1 <= r <= b && |weights| == b
    ensures Blend(WindowBefore(k, b, r), weights, size)
      == BlendedFrame(WeightedSum(Frames(k * r, b), weights), UInt8)
  {
    WindowCoversRange(k, b, r);
  }
}
