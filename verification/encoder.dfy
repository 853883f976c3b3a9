/** The ffmpeg command line of the streaming encoder backend:
    `buildEncoderCommand` and the encoder-availability fallback of
    `processVideo` in resampler.py. */
module Encoder {
  import opened Results
  import opened PyText
  import opened Resolution

  /** The `encoder_settings` JSON object, restricted to the five keys the
      command builder reads; an absent key is `None`. */
  datatype EncoderSettings = EncoderSettings(
    encoder: Option<string>,
    preset: Option<string>,
    crf: Option<int>,
    pixelFormat: Option<string>,
    extraParams: Option<seq<string>>)

  /** The empty object `{}`. */
  const NoEncoderSettings: EncoderSettings := EncoderSettings(None, None, None, None, None)

  const DefaultEncoder: string := "libx264"
  const DefaultPreset: string := "medium"
  const DefaultCrf: int := 18
  const DefaultPixelFormat: string := "yuv420p"

  /** Encoders that accept `-preset`. */
  const PresetEncoders: set<string> :=
    {"libx264", "libx265", "h264_nvenc", "hevc_nvenc", "h264_qsv", "hevc_qsv"}

  /** The rate-control option an encoder family takes, with its value. */
  datatype Quality = Crf(value: int) | Cq(value: int) | GlobalQuality(value: int) | AmfQp(value: int)

  /** Which quality option each encoder family gets; other encoders get none. */
  function QualityFor(encoder: string, crf: int): Option<Quality> {
    if encoder == "libx264" || encoder == "libx265" then Some(Crf(crf))
    else if encoder == "h264_nvenc" || encoder == "hevc_nvenc" then Some(Cq(crf))
    else if encoder == "h264_qsv" || encoder == "hevc_qsv" then Some(GlobalQuality(crf))
    else if encoder == "h264_amf" then Some(AmfQp(crf))
    else None
  }

  function QualityArgs(q: Option<Quality>): seq<string> {
    match q
    case None => []
    case Some(Crf(v)) => ["-crf", IntToString(v)]
    case Some(Cq(v)) => ["-cq", IntToString(v)]
    case Some(GlobalQuality(v)) => ["-global_quality", IntToString(v)]
    case Some(AmfQp(v)) => ["-quality", "quality", "-qp_i", IntToString(v)]
  }

  function PresetArgs(encoder: string, preset: string): seq<string> {
    if encoder in PresetEncoders then ["-preset", preset] else []
  }

  /** Raw BGR frames on standard input at the output size and rate. */
  function InputArgs(res: Res, fps: int, encoder: string): seq<string> {
    ["ffmpeg", "-y", "-f", "rawvideo", "-vcodec", "rawvideo", "-s", FormatRes(res),
     "-pix_fmt", "bgr24", "-r", IntToString(fps), "-i", "-", "-c:v", encoder]
  }

  /** Prefix of the silent intermediate file the encoder writes. */
  const NoAudioPrefix: string := "no-audio_"

  /** `buildEncoderCommand(encoder_settings, output_res, output_fps, output_name)`. */
  function BuildEncoderCommand(es: EncoderSettings, res: Res, fps: int, outputName: string)
    : (cmd: seq<string>)
    ensures |cmd| >= 19
    ensures cmd[0] == "ffmpeg" && cmd[14] == "-c:v" && cmd[15] == es.encoder.GetOr(DefaultEncoder)
    ensures ParseSize(cmd[7]) == Some(res)
    ensures ParseInt(cmd[11]) == Some(fps)
    ensures var extra := es.extraParams.GetOr([]);
      && |cmd| >= 19 + |extra|
      && cmd[|cmd| - 3 - |extra|..]
         == ["-pix_fmt", es.pixelFormat.GetOr(DefaultPixelFormat)] + extra + [NoAudioPrefix + outputName]
    ensures var encoder := es.encoder.GetOr(DefaultEncoder);
      && cmd[..16] == InputArgs(res, fps, encoder)
      && cmd[16..] == PresetArgs(encoder, es.preset.GetOr(DefaultPreset))
                      + QualityArgs(QualityFor(encoder, es.crf.GetOr(DefaultCrf)))
                      + (["-pix_fmt", es.pixelFormat.GetOr(DefaultPixelFormat)]
                         + es.extraParams.GetOr([]) + [NoAudioPrefix + outputName])
  {
    var encoder := es.encoder.GetOr(DefaultEncoder);
    var preset := es.preset.GetOr(DefaultPreset);
    var crf := es.crf.GetOr(DefaultCrf);
    var pixelFormat := es.pixelFormat.GetOr(DefaultPixelFormat);
    var extra := es.extraParams.GetOr([]);
    var head := InputArgs(res, fps, encoder);
    var options := PresetArgs(encoder, preset) + QualityArgs(QualityFor(encoder, crf));
    var tail := ["-pix_fmt", pixelFormat] + extra + [NoAudioPrefix + outputName];
    var cmd := head + options + tail;
    HeadFacts(res, fps, encoder);
    LayoutFacts(head, options, pixelFormat, extra, NoAudioPrefix + outputName);
    assert cmd[0] == head[0] && cmd[7] == head[7] && cmd[11] == head[11];
    assert cmd[14] == head[14] && cmd[15] == head[15];
    cmd
  }

  lemma HeadFacts(res: Res, fps: int, encoder: string)
    ensures var head := InputArgs(res, fps, encoder);
      && |head| == 16
      && head[0] == "ffmpeg" && head[14] == "-c:v" && head[15] == encoder
      && ParseSize(head[7]) == Some(res)
      && ParseInt(head[11]) == Some(fps)
  {
    var head := InputArgs(res, fps, encoder);
    assert head[7] == FormatRes(res);
    assert head[11] == IntToString(fps);
    ParseFormatRoundTrip(res, res);
    ParseIntRoundTrip(fps);
  }

  /** Where the pieces of a command land once concatenated. */
  lemma LayoutFacts(head: seq<string>, options: seq<string>, pixelFormat: string,
                    extra: seq<string>, last: string)
    requires |head| == 16
    ensures var cmd := head + options + (["-pix_fmt", pixelFormat] + extra + [last]);
      && |cmd| == 19 + |options| + |extra|
      && cmd[..16] == head
      && cmd[16..] == options + (["-pix_fmt", pixelFormat] + extra + [last])
      && cmd[|cmd| - 3 - |extra|..] == ["-pix_fmt", pixelFormat] + extra + [last]
  {
    var tail := ["-pix_fmt", pixelFormat] + extra + [last];
    var cmd := head + options + tail;
    assert cmd[|cmd| - |tail|..] == tail;
  }

  /** What an ffmpeg command line of this shape asks for. */
  datatype CommandView = CommandView(
    size: Res,
    fps: int,
    encoder: string,
    preset: Option<string>,
    quality: Option<Quality>,
    pixelFormat: string,
    extraParams: seq<string>,
    outputName: string)

  /** A canonical decimal integer: an optional `-` and at least one digit. */
  function ReadDecimal(s: string): Option<int> {
    if |s| >= 2 && s[0] == '-' && AllDigits(s[1..]) then Some(-(DigitsValue(s[1..]) as int))
    else if |s| >= 1 && AllDigits(s) then Some(DigitsValue(s) as int)
    else None
  }

  lemma ReadDecimalPrinted(n: int)
    ensures ReadDecimal(IntToString(n)) == Some(n)
  {
    var s := IntToString(n);
    if n < 0 {
      assert s[1..] == NatToString(-n);
    } else {
      assert IsDigit(s[0]);
    }
  }

  /** Reads an optional quality option off the front of `args`; `None` when
      the option is there but its value is not an integer. */
  function ReadQuality(args: seq<string>): Option<(Option<Quality>, seq<string>)> {
    if |args| >= 2 && args[0] == "-crf" then
      match ReadDecimal(args[1])
      case None => None
      case Some(v) => Some((Some(Crf(v)), args[2..]))
    else if |args| >= 2 && args[0] == "-cq" then
      match ReadDecimal(args[1])
      case None => None
      case Some(v) => Some((Some(Cq(v)), args[2..]))
    else if |args| >= 2 && args[0] == "-global_quality" then
      match ReadDecimal(args[1])
      case None => None
      case Some(v) => Some((Some(GlobalQuality(v)), args[2..]))
    else if |args| >= 4 && args[0] == "-quality" && args[1] == "quality" && args[2] == "-qp_i" then
      match ReadDecimal(args[3])
      case None => None
      case Some(v) => Some((Some(AmfQp(v)), args[4..]))
    else Some((None, args))
  }

  /** The fixed tokens of the raw-video input section. */
  predicate RawVideoTokens(head: seq<string>)
    requires |head| == 16
  {
    && head[0] == "ffmpeg" && head[1] == "-y" && head[2] == "-f" && head[3] == "rawvideo"
    && head[4] == "-vcodec" && head[5] == "rawvideo" && head[6] == "-s"
    && head[8] == "-pix_fmt" && head[9] == "bgr24" && head[10] == "-r"
    && head[12] == "-i" && head[13] == "-" && head[14] == "-c:v"
  }

  /** Size, rate and encoder named by the input section. */
  function ReadHeader(head: seq<string>): Option<(Res, int, string)>
    requires |head| == 16
  {
    if !RawVideoTokens(head) then None
    else
      match (ParseSize(head[7]), ParseInt(head[11]))
      case (Some(size), Some(fps)) => Some((size, fps, head[15]))
      case _ => None
  }

  /** What follows the encoder name. */
  datatype OptionsView = OptionsView(
    preset: Option<string>,
    quality: Option<Quality>,
    pixelFormat: string,
    extraParams: seq<string>,
    outputName: string)

  /** An optional `-preset`, an optional quality option, `-pix_fmt`,
      pass-through parameters and the silent output file, in that order. */
  function ReadOptions(rest: seq<string>): Option<OptionsView> {
    var preset := if |rest| >= 2 && rest[0] == "-preset" then Some(rest[1]) else None;
    var afterPreset := if preset.Some? then rest[2..] else rest;
    match ReadQuality(afterPreset)
    case None => None
    case Some((quality, tail)) =>
      if |tail| >= 3 && tail[0] == "-pix_fmt" && StartsWith(tail[|tail| - 1], NoAudioPrefix) then
        Some(OptionsView(preset, quality, tail[1], tail[2..|tail| - 1],
                         tail[|tail| - 1][|NoAudioPrefix|..]))
      else None
  }

  /** An independent reading of an encoder command line: what the ffmpeg
      invocation asks for, or `None` when it is not of the builder's shape. */
  function ReadCommand(cmd: seq<string>): Option<CommandView> {
    if |cmd| < 16 then None
    else
      match (ReadHeader(cmd[..16]), ReadOptions(cmd[16..]))
      case (Some((size, fps, encoder)), Some(o)) =>
        Some(CommandView(size, fps, encoder, o.preset, o.quality, o.pixelFormat, o.extraParams, o.outputName))
      case _ => None
  }

  lemma ReadInputArgs(res: Res, fps: int, encoder: string)
    ensures ReadHeader(InputArgs(res, fps, encoder)) == Some((res, fps, encoder))
  {
    HeadFacts(res, fps, encoder);
    InputArgsTokens(res, fps, encoder);
  }

  lemma InputArgsTokens(res: Res, fps: int, encoder: string)
    ensures RawVideoTokens(InputArgs(res, fps, encoder))
  {
    HeadTokens(FormatRes(res), IntToString(fps), encoder);
  }

  lemma HeadTokens(size: string, rate: string, encoder: string)
    ensures RawVideoTokens(["ffmpeg", "-y", "-f", "rawvideo", "-vcodec", "rawvideo", "-s", size,
                            "-pix_fmt", "bgr24", "-r", rate, "-i", "-", "-c:v", encoder])
  {
    var h := ["ffmpeg", "-y", "-f", "rawvideo", "-vcodec", "rawvideo", "-s", size,
              "-pix_fmt", "bgr24", "-r", rate, "-i", "-", "-c:v", encoder];
    assert h[0] == "ffmpeg" && h[1] == "-y" && h[2] == "-f" && h[3] == "rawvideo";
    assert h[4] == "-vcodec" && h[5] == "rawvideo" && h[6] == "-s";
    assert h[8] == "-pix_fmt" && h[9] == "bgr24" && h[10] == "-r";
    assert h[12] == "-i" && h[13] == "-" && h[14] == "-c:v";
  }

  /** The closing `-pix_fmt`, pass-through and output-file section. */
  lemma TailFacts(pixelFormat: string, extra: seq<string>, outputName: string)
    ensures var tail := ["-pix_fmt", pixelFormat] + extra + [NoAudioPrefix + outputName];
      && |tail| >= 3 && tail[0] == "-pix_fmt" && tail[1] == pixelFormat
      && StartsWith(tail[|tail| - 1], NoAudioPrefix)
      && tail[2..|tail| - 1] == extra
      && tail[|tail| - 1][|NoAudioPrefix|..] == outputName
  {
    var last := NoAudioPrefix + outputName;
    var tail := ["-pix_fmt", pixelFormat] + extra + [last];
    assert tail[|tail| - 1] == last;
    assert last[..|NoAudioPrefix|] == NoAudioPrefix;
    assert tail[2..|tail| - 1] == extra;
  }

  lemma ReadOptionArgs(encoder: string, preset: string, q: Option<Quality>,
                       pixelFormat: string, extra: seq<string>, outputName: string)
    ensures ReadOptions(PresetArgs(encoder, preset) + QualityArgs(q)
                        + (["-pix_fmt", pixelFormat] + extra + [NoAudioPrefix + outputName]))
      == Some(OptionsView(if encoder in PresetEncoders then Some(preset) else None, q,
                          pixelFormat, extra, outputName))
  {
    var tail := ["-pix_fmt", pixelFormat] + extra + [NoAudioPrefix + outputName];
    var after := QualityArgs(q) + tail;
    var p := if encoder in PresetEncoders then Some(preset) else None;
    assert |after| >= 1 && after[0] != "-preset" && ReadQuality(after) == Some((q, tail)) by {
      ReadQualityArgs(q, tail);
      QualityArgsHead(q, tail);
    }
    assert PresetArgs(encoder, preset) + QualityArgs(q) + tail == PresetTokens(p) + after by {
      PresetTokensOf(encoder, preset);
      Associative(PresetTokens(p), QualityArgs(q), tail);
    }
    ReadPresetOptions(p, after, q, pixelFormat, extra, outputName);
  }

  lemma PresetTokensOf(encoder: string, preset: string)
    ensures PresetArgs(encoder, preset)
      == PresetTokens(if encoder in PresetEncoders then Some(preset) else None)
  {
  }

  lemma Associative(a: seq<string>, b: seq<string>, c: seq<string>)
    ensures a + b + c == a + (b + c)
  {
  }

  /** The `-preset` pair, when there is a preset. */
  function PresetTokens(preset: Option<string>): seq<string> {
    if preset.Some? then ["-preset", preset.value] else []
  }

  lemma ReadPresetOptions(preset: Option<string>, after: seq<string>, q: Option<Quality>,
                          pixelFormat: string, extra: seq<string>, outputName: string)
    requires |after| >= 1 && after[0] != "-preset"
    requires ReadQuality(after) == Some((q, ["-pix_fmt", pixelFormat] + extra + [NoAudioPrefix + outputName]))
    ensures ReadOptions(PresetTokens(preset) + after)
      == Some(OptionsView(preset, q, pixelFormat, extra, outputName))
  {
    var rest := PresetTokens(preset) + after;
    if preset.Some? {
      assert rest[0] == "-preset" && rest[1] == preset.value && rest[2..] == after;
    } else {
      assert rest == after;
    }
    ReadOptionsAfterPreset(rest, preset, after, q, pixelFormat, extra, outputName);
  }

  /** No quality option starts with `-preset`. */
  lemma QualityArgsHead(q: Option<Quality>, tail: seq<string>)
    requires |tail| >= 1 && tail[0] == "-pix_fmt"
    ensures |QualityArgs(q) + tail| >= 1 && (QualityArgs(q) + tail)[0] != "-preset"
  {
    match q
    case None =>
      assert QualityArgs(q) + tail == tail;
    case Some(_) =>
  }

  /** Once the preset is read, the quality option and the closing section
      follow. */
  lemma ReadOptionsAfterPreset(rest: seq<string>, preset: Option<string>, after: seq<string>,
                               q: Option<Quality>, pixelFormat: string, extra: seq<string>,
                               outputName: string)
    requires preset == (if |rest| >= 2 && rest[0] == "-preset" then Some(rest[1]) else None)
    requires after == (if preset.Some? then rest[2..] else rest)
    requires ReadQuality(after) == Some((q, ["-pix_fmt", pixelFormat] + extra + [NoAudioPrefix + outputName]))
    ensures ReadOptions(rest) == Some(OptionsView(preset, q, pixelFormat, extra, outputName))
  {
    TailFacts(pixelFormat, extra, outputName);
  }

  /** Reading a quality option back gives the option that was written. */
  lemma ReadQualityArgs(q: Option<Quality>, tail: seq<string>)
    requires |tail| >= 1 && tail[0] == "-pix_fmt"
    ensures ReadQuality(QualityArgs(q) + tail) == Some((q, tail))
  {
    match q
    case None =>
      assert QualityArgs(q) + tail == tail;
    case Some(Crf(v)) => ReadTwoTokenQuality(q, "-crf", v, tail);
    case Some(Cq(v)) => ReadTwoTokenQuality(q, "-cq", v, tail);
    case Some(GlobalQuality(v)) => ReadTwoTokenQuality(q, "-global_quality", v, tail);
    case Some(AmfQp(v)) => ReadAmfQuality(v, tail);
  }

  lemma ReadTwoTokenQuality(q: Option<Quality>, flag: string, v: int, tail: seq<string>)
    requires || (q == Some(Crf(v)) && flag == "-crf")
             || (q == Some(Cq(v)) && flag == "-cq")
             || (q == Some(GlobalQuality(v)) && flag == "-global_quality")
    ensures QualityArgs(q) == [flag, IntToString(v)]
    ensures ReadQuality([flag, IntToString(v)] + tail) == Some((q, tail))
  {
    var args := [flag, IntToString(v)] + tail;
    ReadDecimalPrinted(v);
    assert args[0] == flag && args[1] == IntToString(v);
    assert args[2..] == tail;
  }

  lemma ReadAmfQuality(v: int, tail: seq<string>)
    requires |tail| >= 1 && tail[0] == "-pix_fmt"
    ensures ReadQuality(QualityArgs(Some(AmfQp(v))) + tail) == Some((Some(AmfQp(v)), tail))
  {
    var args := ["-quality", "quality", "-qp_i", IntToString(v)] + tail;
    assert QualityArgs(Some(AmfQp(v))) + tail == args;
    ReadDecimalPrinted(v);
    assert args[0] == "-quality" && args[1] == "quality" && args[2] == "-qp_i";
    assert args[3] == IntToString(v);
    assert args[4..] == tail;
  }

  /** The view a built command is meant to have. */
  function Intended(es: EncoderSettings, res: Res, fps: int, outputName: string): CommandView {
    var encoder := es.encoder.GetOr(DefaultEncoder);
    CommandView(
      res, fps, encoder,
      if encoder in PresetEncoders then Some(es.preset.GetOr(DefaultPreset)) else None,
      QualityFor(encoder, es.crf.GetOr(DefaultCrf)),
      es.pixelFormat.GetOr(DefaultPixelFormat),
      es.extraParams.GetOr([]),
      outputName)
  }

  /** Every command the builder produces reads back as the settings it was
      built from, with the defaults `buildEncoderCommand` fills in. */
  lemma ReadBuildRoundTrip(es: EncoderSettings, res: Res, fps: int, outputName: string)
    ensures ReadCommand(BuildEncoderCommand(es, res, fps, outputName))
      == Some(Intended(es, res, fps, outputName))
  {
    var encoder := es.encoder.GetOr(DefaultEncoder);
    var preset := es.preset.GetOr(DefaultPreset);
    var q := QualityFor(encoder, es.crf.GetOr(DefaultCrf));
    var pixelFormat := es.pixelFormat.GetOr(DefaultPixelFormat);
    var extra := es.extraParams.GetOr([]);
    ReadInputArgs(res, fps, encoder);
    ReadOptionArgs(encoder, preset, q, pixelFormat, extra, outputName);
  }

  /** The quality option of each encoder family, as the command spells it. */
  lemma QualityOptionByFamily(es: EncoderSettings, res: Res, fps: int, outputName: string)
    ensures var view := ReadCommand(BuildEncoderCommand(es, res, fps, outputName));
      var encoder := es.encoder.GetOr(DefaultEncoder);
      var crf := es.crf.GetOr(DefaultCrf);
      && view.Some?
      && (view.value.preset.Some? <==> encoder in PresetEncoders)
      && ((encoder == "libx264" || encoder == "libx265") ==> view.value.quality == Some(Crf(crf)))
      && ((encoder == "h264_nvenc" || encoder == "hevc_nvenc") ==> view.value.quality == Some(Cq(crf)))
      && ((encoder == "h264_qsv" || encoder == "hevc_qsv") ==> view.value.quality == Some(GlobalQuality(crf)))
      && (encoder == "h264_amf" ==> view.value.quality == Some(AmfQp(crf)))
      && (encoder !in PresetEncoders && encoder != "h264_amf" ==> view.value.quality == None)
  {
    ReadBuildRoundTrip(es, res, fps, outputName);
  }

  /** Settings left empty give `libx264`, preset `medium`, CRF 18, `yuv420p`
      and no extra parameters. */
  lemma EmptySettingsDefaults(res: Res, fps: int, outputName: string)
    ensures ReadCommand(BuildEncoderCommand(NoEncoderSettings, res, fps, outputName))
      == Some(CommandView(res, fps, "libx264", Some("medium"), Some(Crf(18)), "yuv420p", [], outputName))
  {
    ReadBuildRoundTrip(NoEncoderSettings, res, fps, outputName);
  }

  /** The probe step of `processVideo`: an unavailable encoder is replaced by
      `libx264` and nothing else in the settings changes. */
  function ApplyProbe(es: EncoderSettings, available: bool): (r: EncoderSettings)
    ensures available ==> r == es
    ensures !available ==> r.encoder == Some(DefaultEncoder) && r.(encoder := es.encoder) == es
  {
    if available then es else es.(encoder := Some(DefaultEncoder))
  }

  /** After a failed probe the command always uses `libx264` with its preset
      and `-crf`, whatever encoder was asked for. */
  lemma FallbackCommand(es: EncoderSettings, res: Res, fps: int, outputName: string)
    ensures var view := ReadCommand(BuildEncoderCommand(ApplyProbe(es, false), res, fps, outputName));
      && view.Some?
      && view.value.encoder == "libx264"
      && view.value.preset == Some(es.preset.GetOr(DefaultPreset))
      && view.value.quality == Some(Crf(es.crf.GetOr(DefaultCrf)))
      && view.value.pixelFormat == es.pixelFormat.GetOr(DefaultPixelFormat)
      && view.value.extraParams == es.extraParams.GetOr([])
  {
    ReadBuildRoundTrip(ApplyProbe(es, false), res, fps, outputName);
  }
}
