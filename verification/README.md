# HFR-Resampler core in Dafny

HFR-Resampler turns a high-frame-rate video into a lower-frame-rate one.
Each output frame is a weighted blend of a window of consecutive input
frames. This project models the decision logic of that program:

- **Settings.** `loadSettings` in SettingsLoader.py. It chooses between
  drag-and-drop mode (a single argument that does not start with `-`) and
  command-line mode. In drag-and-drop mode it derives the output file name
  from the dropped file with `os.path.splitext`. It reads the required keys
  of settings.json in order; the first absent key raises. In command-line
  mode it merges `-encoder`, `-preset` and `-crf` into the encoder settings.
- **Resolution.** `parseResolution` in resampler.py. `"UNCHANGED"` keeps the
  input size. Any other string must split on `x` into exactly two pieces,
  each accepted by Python's `int()`.
- **Encoder command.** `buildEncoderCommand` builds the ffmpeg argument list:
  a raw BGR input on standard input, `-preset` only for the six preset-capable
  encoders, and a family-specific quality option. When the encoder probe
  fails, the encoder falls back to `libx264`.
- **Frame-rate checks and counts.** `processVideo` refuses a zero output rate
  (Python's `ZeroDivisionError`) and upsampling. A rate that does not divide
  the input rate needs the answer `y` to continue. The ratio, the output
  frame count and the blend window size are truncated quotients.
- **Blend-and-slide loop.** First read `blended_nframes` frames and blend
  them; then drop the oldest `fps_ratio` frames, read `fps_ratio` new ones,
  and blend again. `blend` contracts the frame stack with the weights under
  numpy's broadcasting rule (a frame axis or weight vector of length 1
  stretches to the other's length). When numpy rejects the contraction it
  falls back to an all-zero float array shaped like the frame stack.
- **Timing ring.** The fifteen-slot window of per-frame processing times.

Frames are represented by their index in the source video. A blended frame
records which source indices and weights it combines, or the zero shape it
falls back to, together with its element type. Python's `int()` and
`str()` on integers, `str.split`, `str.startswith` and `os.path.splitext`
are modelled in their own modules (`PyText`, `PyPath`). `int`/`str`,
`split` and `splitext` each have a partner: `int(str(n)) == n`, split/join
round trips in both directions, and `splitext(stem + ext) == (stem, ext)`.
The drag-and-drop use of `startswith` is restated as a first-character
test in `Settings.IsDragAndDrop`. The ffmpeg command has an
independent reader, `Encoder.ReadCommand`, and every built command reads
back as the settings it was built from.

Modules, in dependency order: `Results` (Option/Result), `PyText`, `PyPath`,
`Resolution`, `Encoder`, `FrameWindow`, `Timing`, `Settings`, `Pipeline`.

Behaviour of the code that the model keeps, including its edge cases:

- The program never checks that the video has enough frames. Reads past
  the end are not modelled (see below), and the window arithmetic is
  stated for any frame count.
- `blended_nframes` is never checked to be at least 1. A blend range that
  truncates to 0, or to fewer frames than the ratio, is accepted. When the
  window is shorter than the ratio, every output after the first sees `r`
  frames against `b` weights. For `b == 0` with `r >= 2`, and for
  `2 <= b < r`, numpy rejects the contraction and those outputs are the
  float zero array (`FrameWindow.ShortWindowBlacksOut`). For `b == 1` the
  single weight is broadcast over all `r` frames
  (`FrameWindow.SingleWeightSpreads`). For `b == 0` with `r == 1` the sum
  over no weights is a uint8 zero frame (`FrameWindow.EmptyWindowAtRatioOne`).
- The zero fallback of `blend` has the stack's shape, `(n, h, w, 3)`, not a
  single frame's shape, and it stays float64 instead of uint8.
- A zero output frame rate is not caught explicitly; the division raises.
  It is modelled as its own error, `ZeroOutputRate`.

## Model

| member | source | states |
|---|---|---|
| PyText.IntToString | resampler.py:69-71 | `str(n)` is an optional minus sign followed by the decimal digits of the magnitude, with no leading zero except for 0 itself |
| PyText.ParseInt | resampler.py:46-47 | `int()` accepts only whitespace, digits, signs and underscores, and a non-empty string of digits is its decimal value |
| PyText.Split | resampler.py:40 | `split("x")` gives one piece more than there are separators, and no piece contains the separator |
| PyText.ParseIntRoundTrip | resampler.py:69-71 | `int()` reads back exactly the integer that `str()` printed into the size and rate tokens |
| PyText.ParseIntSignedPadded | resampler.py:47 | `int()` accepts surrounding whitespace and a sign (`" -7\n"` is -7) |
| PyText.ParseIntUnderscore | resampler.py:47 | `int()` accepts single underscores between digits (`"1_080"` is 1080) |
| PyText.ParseIntRejects | resampler.py:46-49 | a doubled underscore, a unit suffix or an empty piece is not an integer |
| PyText.JoinSplit | resampler.py:40 | joining the pieces of `split("x")` with `x` gives back the string |
| PyText.SplitJoin | resampler.py:40 | splitting a join of separator-free pieces gives back the pieces |
| PyPath.SplitExt | SettingsLoader.py:21 | stem and extension concatenate to the path; the extension is empty or one dot followed by non-dot, non-separator characters; a split-off extension leaves a last component that is not all dots |
| PyPath.SplitExtAppend | SettingsLoader.py:21 | splitext of a stem plus an extension returns exactly that stem and extension |
| PyPath.SplitExtNoDot | SettingsLoader.py:21 | a last path component without dots has no extension |
| PyPath.SplitExtExampleMp4 | SettingsLoader.py:21 | `clip.mp4` splits into `clip` and `.mp4` |
| PyPath.SplitExtExampleDottedDirectory | SettingsLoader.py:21 | a dot in a directory name is not an extension |
| Resolution.FormatRes | resampler.py:69 | the `f"{w}x{h}"` token splits on `x` into exactly the printed width and height |
| Resolution.ParseAll | resampler.py:44-49 | the values come back exactly when every piece is an integer literal, and each value is its piece's `int()` |
| Resolution.ParseSize | resampler.py:40-54 | a token is accepted exactly when it splits on `x` into two integer literals, and the result holds their values |
| Resolution.ParseResolution | resampler.py:35-54 | `"UNCHANGED"` yields the input resolution; any other string succeeds exactly when it is a two-part integer size, else `InvalidResolution` |
| Resolution.ParseFormatRoundTrip | resampler.py:35-54 | a size printed as `<w>x<h>` parses back to the same width and height |
| Resolution.ParsedTokenHasOneX | resampler.py:51-52 | an accepted size token contains exactly one `x` |
| Resolution.ParseResolutionKeepsUnchanged | resampler.py:36-37 | the sentinel keeps the input resolution |
| Resolution.ParseResolution720p | resampler.py:39-54 | `"1280x720"` parses to 1280 by 720 |
| Resolution.ParseResolutionRejectsBogus | resampler.py:51-52 | a string without `x` is one piece and raises `InvalidResolution` |
| Resolution.ParseResolutionRejectsMissingHeight | resampler.py:45-49 | `"1920x"` raises, because the empty piece is not an integer |
| Resolution.ParseResolutionRejectsThreeParts | resampler.py:51-52 | `"1x2x3"` raises, because it has three pieces |
| Encoder.BuildEncoderCommand | resampler.py:56-98 | the command starts with `ffmpeg` and ends with the silent output file; its size token parses to the output resolution and its rate token to the output rate; `-c:v` is followed by the configured encoder or `libx264`; the last tokens before the file are `-pix_fmt`, the pixel format and the extra parameters |
| Encoder.ReadBuildRoundTrip | resampler.py:56-98 | an independent reader recovers size, rate, encoder, preset, quality option, pixel format, extra parameters and output name from every built command, with defaults `libx264`/`medium`/18/`yuv420p`/none |
| Encoder.QualityOptionByFamily | resampler.py:76-88 | `-preset` is present exactly for the six preset encoders; x264/x265 get `-crf`, NVENC `-cq`, QSV `-global_quality`, AMF `-quality quality -qp_i`, any other encoder no quality option |
| Encoder.EmptySettingsDefaults | resampler.py:58-62 | empty encoder settings give `libx264`, preset `medium`, CRF 18, `yuv420p` and no extra parameters |
| Encoder.ApplyProbe | resampler.py:160-165 | an available encoder leaves the settings unchanged; otherwise only the encoder changes, to `libx264` |
| Encoder.FallbackCommand | resampler.py:160-168 | after a failed probe the command uses `libx264` with a preset and `-crf`, and keeps the other settings |
| FrameWindow.StackShape | resampler.py:19 | `np.asarray` of a non-empty frame list has four axes, the frame count first and three channels last; an empty list has shape `(0,)` |
| FrameWindow.Blend | resampler.py:14-20 | the contraction succeeds exactly when the stack is non-empty and its frame count broadcasts against the weight count (equal, or either is 1); it then pairs the i-th stretched frame with the i-th stretched weight and is uint8, and with equal counts it is the plain weighted sum; otherwise the result is float64 zeros shaped like the stack |
| FrameWindow.OneWeightScalesAll | resampler.py:16-17 | a single weight is applied to every frame of a non-empty stack |
| FrameWindow.OneFrameTakesAllWeights | resampler.py:16-17 | a single frame is weighted by every weight; with no weights the result is the empty uint8 sum |
| FrameWindow.MismatchFallsBack | resampler.py:16-20 | two or more frames against a different weight count other than 1 give float64 zeros of shape `(n, h, w, 3)` |
| FrameWindow.Evict | resampler.py:216 | deleting the first `ratio` frames keeps the last `max(n - ratio, 0)` frames in order |
| FrameWindow.WindowStep | resampler.py:219-240 | each output's window is the previous window minus its oldest `ratio` frames plus the next `ratio` unread frames |
| FrameWindow.Admit | resampler.py:203-207 | reading `count` frames appends the next `count` source frames in order |
| FrameWindow.SlideWindow | resampler.py:199-240 | the loop emits `max(n, 1)` frames, reads `max(b, 0) + (outputs - 1) * ratio` source frames, and output `k` blends the window defined for `k` |
| FrameWindow.WindowCoversRange | resampler.py:199-240 | with a window at least as large as the ratio, output `k` sees source frames `k*ratio .. k*ratio+b-1`, and consecutive windows share `b - ratio` frames |
| FrameWindow.ShortWindowBlacksOut | resampler.py:14-20 | with `b` weights and either `b == 0 < 2 <= r` or `2 <= b < r`, every output after the first is the float zero array of shape `(r, h, w, 3)` |
| FrameWindow.SingleWeightSpreads | resampler.py:14-17 | with one weight and `r >= 2`, every output after the first is the uint8 sum of its `r` frames, each scaled by that weight |
| FrameWindow.EmptyWindowAtRatioOne | resampler.py:14-20 | with no weights and ratio 1, the first output is float64 zeros of shape `(0,)` and every later one is the empty uint8 sum over its single frame |
| FrameWindow.FullWindowBlends | resampler.py:14-17 | with one weight per window frame and `b >= ratio`, each output is the uint8 weighted sum of its own `b` consecutive source frames |
| Timing.InitialTimings | resampler.py:197 | the ring starts as fifteen zero slots |
| Timing.Record | resampler.py:243-244 | recording a time keeps the ring's length, shifts every slot one place older and puts the new time last |
| Timing.RecordAllKeepsLatest | resampler.py:243-244 | after any run of recordings the ring is the latest `|ring|` values of its old contents followed by the new times |
| Timing.RingKeepsFifteen | resampler.py:197 | the ring always has fifteen slots: zeros at the front until fifteen times are recorded, then the fifteen latest times |
| Settings.ReadRequired | SettingsLoader.py:32-43 | succeeds exactly when all six required keys are present, carrying their values; otherwise names the first absent key in the order `framerate`, `blend_mode`, `blend_range`, `resolution`, `fourcc`, `cv_colourfix` |
| Settings.ApplyOverrides | SettingsLoader.py:100-109 | each of `-encoder`, `-preset` and `-crf` replaces its own key when given, and no other key changes |
| Settings.LoadSettings | SettingsLoader.py:6-122 | drag-and-drop needs exactly one argument not starting with `-` and an existing file; that mode takes every value from settings.json and the derived output name, CLI mode prefers each argument over settings.json, and both fail on a missing required key |
| Settings.IsDragAndDrop | SettingsLoader.py:12 | drag-and-drop mode holds exactly when there is one argument after the program name and it is empty or does not start with `-` |
| Settings.DragAndDropOutputName | SettingsLoader.py:21-24 | the output name keeps a prefix of the input, drops a tail that is empty or an extension, and appends the suffix and the extension |
| Settings.DragAndDropReplacesExtension | SettingsLoader.py:21-24 | the dropped file's extension is replaced by the suffix (default `_resampled`) and the extension (default `.mp4`) |
| Settings.ModesAgreeWithoutOverrides | SettingsLoader.py:12-122 | with only `-i` and `-o` given, CLI mode returns the drag-and-drop settings except for the two file names |
| Settings.OnlyEncoderSelectsFfmpeg | SettingsLoader.py:97-103 | `-encoder` turns the ffmpeg backend on and sets the encoder; without it the backend follows settings.json, whatever `-preset`/`-crf` say |
| Settings.DroppedClipName | SettingsLoader.py:21-24 | `clip.mp4` with the default suffix and extension is written to `clip_resampled.mp4` |
| Pipeline.Trunc | resampler.py:145-151 | `int()` on a float truncates toward zero |
| Pipeline.FpsRatio | resampler.py:131-145 | a zero output rate is an error; upsampling is refused exactly when the output rate exceeds the input rate; the run is aborted exactly when the rates are not divisible and the answer is not `y`; otherwise the ratio is the integer quotient and at least 1 |
| Pipeline.RatioBelowOne | resampler.py:135 | the float test `input/output < 1` is the integer comparison of the two rates, with the sign of the output rate taken into account |
| Pipeline.FloorDiv | resampler.py:145 | truncating the real quotient by a positive divisor is integer division |
| Pipeline.DerivedCounts | resampler.py:146-151 | the output frame count is the frame count divided by the ratio, rounded down; the window size is `blend_range * ratio`, rounded down |
| Pipeline.ChooseWriter | resampler.py:154-191 | with ffmpeg on, the command is built from the probed settings and reads back the requested encoder, or `libx264` if the probe fails; otherwise the writer is created exactly when the fourcc has four characters (else `TypeError`, `BadFourcc`), and OpenCV writes `no-audio_<output>` with the fourcc, rate and output size |
| Pipeline.PlanRun | resampler.py:124-195 | a bad resolution is reported before any rate error, and a rate error before a bad fourcc; a plan exists exactly when the resolution parses, the rate checks pass and the writer can be created; a resize is planned exactly when the sizes differ |
| Pipeline.ProcessVideo | resampler.py:113-240 | fails exactly as the plan does (bad resolution, zero rate, upsampling, unconfirmed mismatch, bad fourcc); otherwise emits `max(output_nframes, 1)` frames, reads the number of source frames the window loop reads, and blends output `k` from its window with `weight(blend_mode, blended_nframes)` |
| Pipeline.QuarterRate | resampler.py:133-151 | 240 fps to 60 fps gives ratio 4, and a blend range of 1.0 gives a 4-frame window for any frame count |
| Pipeline.UpsamplingRefused | resampler.py:135-136 | 60 fps to 120 fps is refused |
| Pipeline.MismatchNeedsConfirmation | resampler.py:138-143 | 60 fps to 25 fps continues with ratio 2 on `y` and aborts on `yes` |
| Pipeline.EightFramesToTwo | resampler.py:145-240 | eight 240 fps frames at 60 fps with range 1.0, through ffmpeg or a four-character fourcc, give two outputs, blending source frames 0-3 and 4-7 |
| Pipeline.ThreeLetterFourccRejected | resampler.py:182-191 | the same run through OpenCV with the fourcc `mp4` stops with `BadFourcc` when the writer is created |

## Left out

- Reading settings.json and running argparse. Their results are the
  `SettingsFile` and `CliArgs` inputs. JSON values are typed (a wrongly
  typed value is not modelled), and argparse's own usage errors and
  `--version` are not modelled.
- The file-existence check in drag-and-drop mode is a boolean input.
- `os.path.splitext` is modelled for the POSIX and Windows separator sets.
  Drive letters and UNC prefixes need no special case, because
  `ntpath.splitext` does not strip them either.
- `int()` is modelled for ASCII digits and ASCII whitespace only. Unicode
  digits and Unicode spaces, which Python also accepts, are not modelled.
- PyText.ParseInt: CPython's limit on the length of integer strings
  (`int_max_str_digits`, 4300 digits by default in the releases that have
  it) is not modelled, because it depends on the interpreter version and
  its configuration. A longer digit string parses here, where such a
  Python raises `ValueError`.
- The encoder settings object is modelled with the five keys the command
  builder reads. Other keys are carried by Python but never read.
- OpenCV I/O: opening the video (`VideoReadError`), reading, resizing,
  writing frames and releasing. The video's size, rounded frame rate and
  frame count are inputs, and frames are source indices. Reads past the
  end of the video, where OpenCV returns no frame, are not modelled.
- `weight()` (Weights.py) is not part of this model. It is a function
  parameter of `ProcessVideo`.
- The subprocess side: `testEncoder` is a probe parameter. Starting
  ffmpeg, writing to its pipe, `BrokenPipeError`, the exit-code check,
  `colourFix`, `addAudio` and the file renames are not modelled.
- The interactive prompt is an input string (`answer`).
- Pipeline.ProcessVideo: failures of its I/O are not modelled: the
  `VideoReadError` when the video cannot be opened, the exception when
  ffmpeg cannot be started, `BrokenPipeError` while writing, and an OpenCV
  writer that opens but rejects the codec silently.
- Pipeline.ChooseWriter: only the arity check of `cv.VideoWriter_fourcc`
  is modelled; whether OpenCV knows the four-character codec is not.
- The pixel arithmetic of the contraction and its uint8 cast, which
  truncates and wraps out-of-range values, are not modelled. A blended frame
  records which frames and weights the contraction pairs.
- Floating point: ratios and blend ranges are exact reals. Rounding of
  binary floats before truncation is not modelled.
- Pipeline.FpsRatio: the input rate is taken as already rounded by
  `round()`; the rounding itself is not modelled.
- Timing.Record: the averages, the ETA and the progress line printed from
  the ring are console output and are left out. The process clock is an
  input.
- The mutation of the caller's `encoder_settings` dictionary by the probe
  fallback is modelled as a new value (`ApplyProbe`).
