/** The pure part of `processVideo` in resampler.py: resolution and
    frame-rate validation, the derived frame counts, the choice of output
    writer with the encoder fallback, and the blend-and-slide loop. The
    video's properties, the answer typed at the mismatch prompt, the encoder
    probe and the weight generator are inputs. */
module Pipeline {
  import opened Results
  import opened Resolution
  import opened Encoder
  import opened Settings
  import opened FrameWindow

  /** What OpenCV reports about the input: size, rounded frame rate and
      frame count. */
  datatype VideoInfo = VideoInfo(size: Res, fps: int, frameCount: int)

  datatype RunError =
    | BadResolution          // InvalidResolution from parseResolution
    | ZeroOutputRate         // ZeroDivisionError in input_fps/output_fps
    | UpsamplingNotSupported // output rate above input rate
    | UserAborted            // mismatch warning not confirmed with "y"
    | BadFourcc              // TypeError from cv.VideoWriter_fourcc(*fourcc)

  /** Python's `int(x)` on a float: truncation toward zero. */
  function Trunc(x: real): (n: int)
    ensures x >= 0.0 ==> n as real <= x < n as real + 1.0
    ensures x < 0.0 ==> n as real - 1.0 < x <= n as real
  {
    if x >= 0.0 then x.Floor else -((-x).Floor)
  }

  /** The answer that continues past the divisibility warning. */
  const Confirmation: string := "y"

  /** Lines 133-145 of `processVideo`: the integer frame-rate ratio, or why
      the run stops. Python's `%` and Dafny's agree on whether the remainder
      is zero. */
  function FpsRatio(inFps: int, outFps: int, answer: string): (r: Result<int, RunError>)
    ensures outFps == 0 <==> r == Err(ZeroOutputRate)
    ensures outFps > 0 ==> (r == Err(UpsamplingNotSupported) <==> inFps < outFps)
    ensures outFps < 0 ==> (r == Err(UpsamplingNotSupported) <==> inFps > outFps)
    ensures r == Err(UserAborted) <==>
      outFps != 0 && r != Err(UpsamplingNotSupported) && inFps % outFps != 0 && answer != Confirmation
    ensures r.Ok? && outFps > 0 ==> r.value == inFps / outFps
    ensures r.Ok? ==> r.value >= 1
  {
    if outFps == 0 then Err(ZeroOutputRate)
    else
      var ratio := inFps as real / outFps as real;
      RatioBelowOne(inFps, outFps);
      FloorDiv(inFps, if outFps > 0 then outFps else 1);
      if ratio < 1.0 then Err(UpsamplingNotSupported)
      else if inFps % outFps != 0 && answer != Confirmation then Err(UserAborted)
      else Ok(Trunc(ratio))
  }

  lemma QuotientTimes(a: int, b: int)
    requires b != 0
    ensures (a as real / b as real) * b as real == a as real
  {
  }

  lemma SignOfProduct(x: real, y: real)
    requires y > 0.0
    ensures x > 0.0 <==> x * y > 0.0
  {
    if x > 0.0 {
      assert x * y > 0.0;
    } else if x < 0.0 {
      assert (-x) * y > 0.0;
    }
  }

  /** `input_fps/output_fps < 1` in integer terms. */
  lemma RatioBelowOne(a: int, b: int)
    requires b != 0
    ensures b > 0 ==> (a as real / b as real < 1.0 <==> a < b)
    ensures b < 0 ==> (a as real / b as real < 1.0 <==> a > b)
  {
    var q := a as real / b as real;
    QuotientTimes(a, b);
    if b > 0 {
      assert (1.0 - q) * b as real == (b - a) as real;
      SignOfProduct(1.0 - q, b as real);
    } else {
      assert (1.0 - q) * (-b) as real == (a - b) as real;
      SignOfProduct(1.0 - q, (-b) as real);
    }
  }

  /** Flooring the real quotient by a positive divisor is integer division. */
  lemma FloorDiv(a: int, b: int)
    requires b > 0
    ensures (a as real / b as real).Floor == a / b
  {
    var d := a / b;
    var m := a % b;
    var frac := m as real / b as real;
    assert 0.0 <= frac < 1.0 by {
      QuotientTimes(m, b);
    }
    assert (d as real + frac) * b as real == a as real by {
      QuotientTimes(m, b);
    }
    assert a as real / b as real == d as real + frac;
  }

  /** How the blended frames leave the program. */
  datatype Writer =
    | FfmpegPipe(settings: EncoderSettings, command: seq<string>)
    | OpenCvWriter(fileName: string, fourcc: string, fps: int, size: Res)

  /** Everything `processVideo` decides before it reads the first frame. */
  datatype Plan = Plan(
    outputRes: Res,
    needResize: bool,
    fpsRatio: int,
    outputFrames: int,
    windowSize: int,
    writer: Writer)

  /** `cv.VideoWriter_fourcc(*code)` takes exactly four one-character
      arguments, so spreading the code works only for a four-character
      string. */
  predicate FourccSpreads(code: string) {
    |code| == 4
  }

  /** Lines 154-191 of `processVideo`: the ffmpeg pipe, after the probe
      fallback, or OpenCV's writer on the silent intermediate file, which
      raises `TypeError` unless the fourcc has four characters. */
  function ChooseWriter(s: Settings, outputRes: Res, probe: string -> bool): (r: Result<Writer, RunError>)
    ensures s.useFfmpegEncoder ==>
      var requested := s.encoderSettings.encoder.GetOr(DefaultEncoder);
      && r.Ok?
      && r.value.FfmpegPipe?
      && r.value.settings == ApplyProbe(s.encoderSettings, probe(requested))
      && r.value.command == BuildEncoderCommand(r.value.settings, outputRes, s.outputFps, s.outputName)
      && ReadCommand(r.value.command).Some?
      && ReadCommand(r.value.command).value.encoder == (if probe(requested) then requested else DefaultEncoder)
    ensures !s.useFfmpegEncoder ==> (r.Ok? <==> |s.fourcc| == 4)
    ensures !s.useFfmpegEncoder && r.Ok? ==>
      r.value == OpenCvWriter(NoAudioPrefix + s.outputName, s.fourcc, s.outputFps, outputRes)
    ensures r.Err? ==> r.error == BadFourcc
  {
    if s.useFfmpegEncoder then
      var requested := s.encoderSettings.encoder.GetOr(DefaultEncoder);
      var es := ApplyProbe(s.encoderSettings, probe(requested));
      ReadBuildRoundTrip(es, outputRes, s.outputFps, s.outputName);
      Ok(FfmpegPipe(es, BuildEncoderCommand(es, outputRes, s.outputFps, s.outputName)))
    else if !FourccSpreads(s.fourcc) then
      Err(BadFourcc)
    else
      Ok(OpenCvWriter(NoAudioPrefix + s.outputName, s.fourcc, s.outputFps, outputRes))
  }

  /** Lines 146-151 of `processVideo`: `output_nframes` and `blended_nframes`. */
  function DerivedCounts(frameCount: int, blendRange: real, ratio: int): (c: (int, int))
    requires ratio >= 1
    ensures frameCount >= 0 ==> c.0 == frameCount / ratio
    ensures frameCount >= 0 ==> c.0 * ratio <= frameCount < (c.0 + 1) * ratio
    ensures blendRange >= 0.0 ==>
      c.1 >= 0 && c.1 as real <= blendRange * ratio as real < c.1 as real + 1.0
  {
    FrameCountFacts(frameCount, ratio);
    (Trunc(frameCount as real / ratio as real), Trunc(blendRange * ratio as real))
  }

  /** Lines 124-197 of `processVideo`. `probe` answers whether ffmpeg lists
      an encoder. */
  function PlanRun(s: Settings, video: VideoInfo, answer: string, probe: string -> bool)
    : (r: Result<Plan, RunError>)
    ensures ParseResolution(video.size, s.resolution).Err? ==> r == Err(BadResolution)
    ensures ParseResolution(video.size, s.resolution).Ok? ==>
      (r.Ok? <==> FpsRatio(video.fps, s.outputFps, answer).Ok? && (s.useFfmpegEncoder || |s.fourcc| == 4))
    ensures ParseResolution(video.size, s.resolution).Ok? && FpsRatio(video.fps, s.outputFps, answer).Err? ==>
      r == Err(FpsRatio(video.fps, s.outputFps, answer).error)
    ensures (&& ParseResolution(video.size, s.resolution).Ok?
             && FpsRatio(video.fps, s.outputFps, answer).Ok?
             && !s.useFfmpegEncoder && |s.fourcc| != 4) ==> r == Err(BadFourcc)
    ensures r.Ok? ==>
      && ParseResolution(video.size, s.resolution) == Ok(r.value.outputRes)
      && r.value.needResize == (r.value.outputRes != video.size)
      && FpsRatio(video.fps, s.outputFps, answer) == Ok(r.value.fpsRatio)
      && (r.value.outputFrames, r.value.windowSize)
         == DerivedCounts(video.frameCount, s.blendRange, r.value.fpsRatio)
      && ChooseWriter(s, r.value.outputRes, probe) == Ok(r.value.writer)
  {
    match ParseResolution(video.size, s.resolution)
    case Err(_) => Err(BadResolution)
    case Ok(outputRes) =>
      match FpsRatio(video.fps, s.outputFps, answer)
      case Err(e) => Err(e)
      case Ok(ratio) =>
        var counts := DerivedCounts(video.frameCount, s.blendRange, ratio);
        match ChooseWriter(s, outputRes, probe)
        case Err(e) => Err(e)
        case Ok(writer) => Ok(Plan(outputRes, outputRes != video.size, ratio, counts.0, counts.1, writer))
  }

  /** `int(input_nframes / fps_ratio)` is the integer quotient for a
      non-negative frame count. */
  lemma FrameCountFacts(frameCount: int, ratio: int)
    requires ratio >= 1
    ensures frameCount >= 0 ==>
      var n := Trunc(frameCount as real / ratio as real);
      n == frameCount / ratio && n * ratio <= frameCount < (n + 1) * ratio
  {
    if frameCount >= 0 {
      FloorDiv(frameCount, ratio);
      var d := frameCount / ratio;
      assert d * ratio <= frameCount < (d + 1) * ratio;
    }
  }

  /** A finished run: the plan, every blended frame in output order and how
      many source frames were read. */
  datatype Run = Run(plan: Plan, frames: seq<BlendedFrame>, framesRead: nat)

  /** `processVideo` up to the point where the encoder is closed.
      `weigh(mode, n)` stands for `weight(blend_mode, blended_nframes)`. */
  method ProcessVideo(s: Settings, video: VideoInfo, answer: string, probe: string -> bool,
                      weigh: (string, int) -> seq<real>)
    returns (r: Result<Run, RunError>)
    ensures r.Ok? <==> PlanRun(s, video, answer, probe).Ok?
    ensures r.Err? ==> r.error == PlanRun(s, video, answer, probe).error
    ensures r.Ok? ==>
      var p := r.value.plan;
      && PlanRun(s, video, answer, probe) == Ok(p)
      && |r.value.frames| == Max(p.outputFrames, 1)
      && r.value.framesRead == Max(p.windowSize, 0) + (|r.value.frames| - 1) * p.fpsRatio
      && forall k :: 0 <= k < |r.value.frames| ==>
           r.value.frames[k] == Blend(WindowBefore(k, p.windowSize, p.fpsRatio),
                                      weigh(s.blendMode, p.windowSize), p.outputRes)
  {
    var plan := PlanRun(s, video, answer, probe);
    if plan.Err? {
      return Err(plan.error);
    }
    var p := plan.value;
    var weights := weigh(s.blendMode, p.windowSize);
    var frames, consumed := SlideWindow(p.windowSize, p.fpsRatio, p.outputFrames, weights, p.outputRes);
    r := Ok(Run(p, frames, consumed));
  }

  /** 240 fps to 60 fps: the ratio is 4 and a blend range of 1.0 gives a
      window of 4 frames. */
  lemma QuarterRate(answer: string, frameCount: int)
    ensures FpsRatio(240, 60, answer) == Ok(4)
    ensures DerivedCounts(frameCount, 1.0, 4).1 == 4
  {
  }

  /** 60 fps to 120 fps is refused before any frame is read. */
  lemma UpsamplingRefused(answer: string)
    ensures FpsRatio(60, 120, answer) == Err(UpsamplingNotSupported)
  {
  }

  /** 60 fps to 25 fps runs only when the warning is confirmed. */
  lemma MismatchNeedsConfirmation()
    ensures FpsRatio(60, 25, "y") == Ok(2)
    ensures FpsRatio(60, 25, "yes") == Err(UserAborted)
  {
  }

  /** An 8-frame 240 fps source resampled to 60 fps with blend range 1.0
      gives two output frames, blending source frames 0-3 and 4-7. */
  lemma EightFramesToTwo(s: Settings, video: VideoInfo, answer: string, probe: string -> bool)
    requires s.outputFps == 60 && s.blendRange == 1.0 && s.resolution == Unchanged
    requires s.useFfmpegEncoder || |s.fourcc| == 4
    requires video.fps == 240 && video.frameCount == 8
    ensures var r := PlanRun(s, video, answer, probe);
      && r.Ok?
      && r.value.fpsRatio == 4 && r.value.windowSize == 4 && r.value.outputFrames == 2
      && WindowBefore(0, 4, 4) == [0, 1, 2, 3]
      && WindowBefore(1, 4, 4) == [4, 5, 6, 7]
  {
    assert ParseResolution(video.size, s.resolution) == Ok(video.size);
    assert FpsRatio(240, 60, answer) == Ok(4);
    assert ChooseWriter(s, video.size, probe).Ok?;
    assert DerivedCounts(8, 1.0, 4) == (2, 4) by {
      FrameCountFacts(8, 4);
    }
    FirstTwoWindows();
  }

  lemma FirstTwoWindows()
    ensures WindowBefore(0, 4, 4) == [0, 1, 2, 3]
    ensures WindowBefore(1, 4, 4) == [4, 5, 6, 7]
  {
    assert WindowBefore(1, 4, 4) == Frames(4, 4);
  }

  /** The same run through OpenCV with the three-letter code `mp4` stops
      when the writer is created, before any frame is read. */
  lemma ThreeLetterFourccRejected(s: Settings, video: VideoInfo, answer: string, probe: string -> bool)
    requires s.outputFps == 60 && s.blendRange == 1.0 && s.resolution == Unchanged
    requires video.fps == 240
    requires !s.useFfmpegEncoder && s.fourcc == "mp4"
    ensures PlanRun(s, video, answer, probe) == Err(BadFourcc)
  {
    assert FpsRatio(240, 60, answer) == Ok(4);
  }
}
