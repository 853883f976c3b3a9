/** `loadSettings` in SettingsLoader.py: choosing between drag-and-drop and
    command-line mode, deriving the output name, and merging command-line
    encoder overrides into the settings file's encoder settings. Reading
    settings.json, running argparse and the file-existence check happen
    outside; their results are the inputs here. */
module Settings {
  import opened Results
  import opened PyText
  import opened PyPath
  import opened Encoder

  /** The parsed settings.json; a key that is absent is `None`. */
  datatype SettingsFile = SettingsFile(
    framerate: Option<int>,
    blendMode: Option<string>,
    blendRange: Option<real>,
    resolution: Option<string>,
    fourcc: Option<string>,
    cvColourfix: Option<bool>,
    outputSuffix: Option<string>,
    outputExtension: Option<string>,
    useFfmpegEncoder: Option<bool>,
    encoderSettings: Option<EncoderSettings>)

  /** What argparse returns in command-line mode: the two required names,
      each optional setting (`None` when not given) and the `-cvfix` flag. */
  datatype CliArgs = CliArgs(
    inputName: string,
    outputName: string,
    outputFps: Option<int>,
    blendMode: Option<string>,
    blendRange: Option<real>,
    resolution: Option<string>,
    fourcc: Option<string>,
    cvColourfix: bool,
    encoder: Option<string>,
    preset: Option<string>,
    crf: Option<int>)

  /** The ten-key settings dictionary both modes return. */
  datatype Settings = Settings(
    inputName: string,
    outputName: string,
    outputFps: int,
    blendMode: string,
    blendRange: real,
    resolution: string,
    fourcc: string,
    cvColourfix: bool,
    useFfmpegEncoder: bool,
    encoderSettings: EncoderSettings)

  datatype SettingsError =
    | InputNotFound(path: string)   // FileNotFoundError in drag-and-drop mode
    | MissingKey(key: string)       // KeyError on a required settings.json key

  /** The keys read with `settingsJson[key]`, in the order both modes read them. */
  const RequiredKeys: seq<string> :=
    ["framerate", "blend_mode", "blend_range", "resolution", "fourcc", "cv_colourfix"]

  predicate HasRequiredKey(json: SettingsFile, i: nat)
    requires i < |RequiredKeys|
  {
    match i
    case 0 => json.framerate.Some?
    case 1 => json.blendMode.Some?
    case 2 => json.blendRange.Some?
    case 3 => json.resolution.Some?
    case 4 => json.fourcc.Some?
    case _ => json.cvColourfix.Some?
  }

  datatype Required = Required(
    framerate: int, blendMode: string, blendRange: real,
    resolution: string, fourcc: string, cvColourfix: bool)

  /** Looks the required keys up in order; the first absent one raises. */
  function ReadRequired(json: SettingsFile): (r: Result<Required, SettingsError>)
    ensures r.Ok? <==> forall i :: 0 <= i < |RequiredKeys| ==> HasRequiredKey(json, i)
    ensures r.Err? ==> exists i :: (0 <= i < |RequiredKeys| && r.error == MissingKey(RequiredKeys[i])
      && !HasRequiredKey(json, i) && forall j :: 0 <= j < i ==> HasRequiredKey(json, j))
    ensures r.Ok? ==>
      && json.framerate == Some(r.value.framerate)
      && json.blendMode == Some(r.value.blendMode)
      && json.blendRange == Some(r.value.blendRange)
      && json.resolution == Some(r.value.resolution)
      && json.fourcc == Some(r.value.fourcc)
      && json.cvColourfix == Some(r.value.cvColourfix)
  {
    if json.framerate.None? then
      assert !HasRequiredKey(json, 0);
      Err(MissingKey(RequiredKeys[0]))
    else if json.blendMode.None? then
      FirstMissing(json, 1);
      assert !HasRequiredKey(json, 1);
      Err(MissingKey(RequiredKeys[1]))
    else if json.blendRange.None? then
      FirstMissing(json, 2);
      assert !HasRequiredKey(json, 2);
      Err(MissingKey(RequiredKeys[2]))
    else if json.resolution.None? then
      FirstMissing(json, 3);
      assert !HasRequiredKey(json, 3);
      Err(MissingKey(RequiredKeys[3]))
    else if json.fourcc.None? then
      FirstMissing(json, 4);
      assert !HasRequiredKey(json, 4);
      Err(MissingKey(RequiredKeys[4]))
    else if json.cvColourfix.None? then
      FirstMissing(json, 5);
      assert !HasRequiredKey(json, 5);
      Err(MissingKey(RequiredKeys[5]))
    else
      assert forall i :: 0 <= i < |RequiredKeys| ==> HasRequiredKey(json, i) by {
        FirstMissing(json, 6);
      }
      Ok(Required(json.framerate.value, json.blendMode.value, json.blendRange.value,
                  json.resolution.value, json.fourcc.value, json.cvColourfix.value))
  }

  /** The keys before position `k` are present, the one at `k` (if any) is not. */
  lemma FirstMissing(json: SettingsFile, k: nat)
    requires 1 <= k <= |RequiredKeys|
    requires json.framerate.Some?
    requires k >= 2 ==> json.blendMode.Some?
    requires k >= 3 ==> json.blendRange.Some?
    requires k >= 4 ==> json.resolution.Some?
    requires k >= 5 ==> json.fourcc.Some?
    requires k >= 6 ==> json.cvColourfix.Some?
    ensures forall j :: 0 <= j < k ==> HasRequiredKey(json, j)
  {
    forall j | 0 <= j < k
      ensures HasRequiredKey(json, j)
    {
      if j == 0 {} else if j == 1 {} else if j == 2 {} else if j == 3 {} else if j == 4 {} else {}
    }
  }

  /** Exactly one argument after the program name, not starting with `-`. */
  predicate IsDragAndDrop(argv: seq<string>): (b: bool)
    ensures b <==> |argv| == 2 && (argv[1] == "" || argv[1][0] != '-')
  {
    |argv| == 2 && !StartsWith(argv[1], "-")
  }

  const DefaultSuffix: string := "_resampled"
  const DefaultExtension: string := ".mp4"

  /** `splitext(input)[0] + suffix + extension`. */
  function DragAndDropOutputName(input: string, json: SettingsFile, f: PathFlavour): (name: string)
    ensures var tail := json.outputSuffix.GetOr(DefaultSuffix) + json.outputExtension.GetOr(DefaultExtension);
      var cut := |name| - |tail|;
      && 0 <= cut <= |input|
      && name == input[..cut] + tail
      && (input[cut..] == "" || IsExtension(input[cut..], f))
  {
    SplitExt(input, f).0 + json.outputSuffix.GetOr(DefaultSuffix)
      + json.outputExtension.GetOr(DefaultExtension)
  }

  /** The dropped file's extension is replaced by suffix and extension; a
      name whose last component has no dot keeps all of it. */
  lemma DragAndDropReplacesExtension(stem: string, ext: string, json: SettingsFile, f: PathFlavour)
    requires HasStem(BaseName(stem, f))
    requires ext == "" || IsExtension(ext, f)
    requires ext == "" ==> '.' !in BaseName(stem, f)
    ensures DragAndDropOutputName(stem + ext, json, f)
      == stem + json.outputSuffix.GetOr(DefaultSuffix) + json.outputExtension.GetOr(DefaultExtension)
  {
    if ext == "" {
      assert stem + ext == stem;
      SplitExtNoDot(stem, f);
    } else {
      SplitExtAppend(stem, ext, f);
    }
  }

  /** `-encoder`, `-preset` and `-crf` each replace their own key when given. */
  function ApplyOverrides(es: EncoderSettings, args: CliArgs): (r: EncoderSettings)
    ensures r.encoder == (if args.encoder.Some? then args.encoder else es.encoder)
    ensures r.preset == (if args.preset.Some? then args.preset else es.preset)
    ensures r.crf == (if args.crf.Some? then args.crf else es.crf)
    ensures r.pixelFormat == es.pixelFormat && r.extraParams == es.extraParams
  {
    var withEncoder := if args.encoder.Some? then es.(encoder := args.encoder) else es;
    var withPreset := if args.preset.Some? then withEncoder.(preset := args.preset) else withEncoder;
    if args.crf.Some? then withPreset.(crf := args.crf) else withPreset
  }

  /** `loadSettings()`, with argv, the parsed settings.json, the existence of
      the dropped file and the argparse result as inputs. */
  function LoadSettings(argv: seq<string>, json: SettingsFile, inputExists: bool,
                        args: CliArgs, f: PathFlavour): (r: Result<Settings, SettingsError>)
    ensures IsDragAndDrop(argv) && !inputExists ==> r == Err(InputNotFound(argv[1]))
    ensures (IsDragAndDrop(argv) ==> inputExists) ==>
      (r.Ok? <==> ReadRequired(json).Ok?) && (r.Err? ==> r.error.MissingKey?)
    ensures r.Ok? && IsDragAndDrop(argv) ==> r.value == Settings(
      argv[1], DragAndDropOutputName(argv[1], json, f),
      json.framerate.value, json.blendMode.value, json.blendRange.value,
      json.resolution.value, json.fourcc.value, json.cvColourfix.value,
      json.useFfmpegEncoder.GetOr(false), json.encoderSettings.GetOr(NoEncoderSettings))
    ensures r.Ok? && !IsDragAndDrop(argv) ==>
      && r.value.inputName == args.inputName
      && r.value.outputName == args.outputName
      && r.value.outputFps == args.outputFps.GetOr(json.framerate.value)
      && r.value.blendMode == args.blendMode.GetOr(json.blendMode.value)
      && r.value.blendRange == args.blendRange.GetOr(json.blendRange.value)
      && r.value.resolution == args.resolution.GetOr(json.resolution.value)
      && r.value.fourcc == args.fourcc.GetOr(json.fourcc.value)
      && r.value.cvColourfix == (args.cvColourfix || json.cvColourfix.value)
      && r.value.useFfmpegEncoder == (args.encoder.Some? || json.useFfmpegEncoder.GetOr(false))
      && r.value.encoderSettings
         == ApplyOverrides(json.encoderSettings.GetOr(NoEncoderSettings), args)
  {
    if IsDragAndDrop(argv) then
      var input := argv[1];
      if !inputExists then Err(InputNotFound(input))
      else
        match ReadRequired(json)
        case Err(e) => Err(e)
        case Ok(req) =>
          Ok(Settings(input, DragAndDropOutputName(input, json, f),
                      req.framerate, req.blendMode, req.blendRange, req.resolution, req.fourcc,
                      req.cvColourfix, json.useFfmpegEncoder.GetOr(false),
                      json.encoderSettings.GetOr(NoEncoderSettings)))
    else
      match ReadRequired(json)
      case Err(e) => Err(e)
      case Ok(req) =>
        var useFfmpeg := if args.encoder.Some? then true else json.useFfmpegEncoder.GetOr(false);
        Ok(Settings(args.inputName, args.outputName,
                    args.outputFps.GetOr(req.framerate), args.blendMode.GetOr(req.blendMode),
                    args.blendRange.GetOr(req.blendRange), args.resolution.GetOr(req.resolution),
                    args.fourcc.GetOr(req.fourcc), if args.cvColourfix then true else req.cvColourfix,
                    useFfmpeg, ApplyOverrides(json.encoderSettings.GetOr(NoEncoderSettings), args)))
  }

  /** A command line that gives only `-i` and `-o`. */
  predicate NoOverrides(args: CliArgs) {
    && args.outputFps.None? && args.blendMode.None? && args.blendRange.None?
    && args.resolution.None? && args.fourcc.None? && !args.cvColourfix
    && args.encoder.None? && args.preset.None? && args.crf.None?
  }

  /** Without overrides the two modes agree on everything but the file
      names: both take every setting from settings.json. */
  lemma ModesAgreeWithoutOverrides(dropped: string, argv: seq<string>, json: SettingsFile,
                                   args: CliArgs, f: PathFlavour)
    requires |argv| >= 1 && IsDragAndDrop([argv[0], dropped]) && !IsDragAndDrop(argv)
    requires NoOverrides(args)
    requires ReadRequired(json).Ok?
    ensures var dnd := LoadSettings([argv[0], dropped], json, true, args, f);
      var cli := LoadSettings(argv, json, true, args, f);
      && dnd.Ok? && cli.Ok?
      && dnd.value.(inputName := args.inputName, outputName := args.outputName) == cli.value
  {
  }

  /** Preset or CRF on the command line never switch the encoder backend
      on; only `-encoder` does. */
  lemma OnlyEncoderSelectsFfmpeg(argv: seq<string>, json: SettingsFile, args: CliArgs, f: PathFlavour)
    requires !IsDragAndDrop(argv) && ReadRequired(json).Ok?
    ensures var r := LoadSettings(argv, json, true, args, f);
      && r.Ok?
      && (args.encoder.Some? ==>
            r.value.useFfmpegEncoder && r.value.encoderSettings.encoder == args.encoder)
      && (args.encoder.None? ==> r.value.useFfmpegEncoder == json.useFfmpegEncoder.GetOr(false))
  {
  }

  /** The drop target `clip.mp4` with default suffix and extension is
      written to `clip_resampled.mp4`. */
  lemma DroppedClipName(json: SettingsFile)
    requires json.outputSuffix.None? && json.outputExtension.None?
    ensures DragAndDropOutputName("clip.mp4", json, Posix) == "clip_resampled.mp4"
  {
    SplitExtExampleMp4();
  }
}
