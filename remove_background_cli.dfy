/**
 * The command-line script: `remove_background` (input check, output path,
 * decoding, model fallback, pixel work) and the two decisions `main` makes
 * before calling it (which output argument wins, and whether the confidence
 * is acceptable). File system, decoder, model loader, detector and smoothing
 * are supplied from outside as `Externals`.
 */
module RemoveBackgroundCli {
  import opened Wrappers
  import opened Imaging
  import opened MaskExtraction
  import opened Compositing
  import opened OutputPaths
  import opened ModelLoading

  /**
   * What the pipeline learns from code it does not contain: whether the input
   * exists, what the decoder returned, which weights load, what the detector
   * found, and what opening, closing and blurring make of a mask.
   */
  datatype Externals = Externals(
    inputExists: bool,
    decoded: Option<Image>,
    loadable: set<string>,
    detections: seq<Detection>,
    smooth: Grid -> Grid)

  /** The detector's instance masks come at the resolution of the decoded image. */
  predicate DetectionsFit(ext: Externals) {
    ext.decoded.Some? ==> MasksAtResolution(ext.detections, ext.decoded.value.height, ext.decoded.value.width)
  }

  /** `remove_background` as a value: the output path and the RGBA image written there, or the exception raised. */
  function RemoveBackgroundResult(input: Path, output: Option<Path>, size: string, ext: Externals): Result<(Path, Rgba), Failure>
    requires DetectionsFit(ext)
  {
    if !ext.inputExists then Err(InputNotFound)
    else match OutputPathFor(input, output)
      case Err(e) => Err(e)
      case Ok(out) =>
        match ext.decoded
        case None => Err(UnreadableImage)
        case Some(img) =>
          match LoadWithFallback(size, ext.loadable)
          case Err(e) => Err(e)
          case Ok(_) =>
            match CutoutOf(img, ext.detections, ext.smooth)
            case Err(e) => Err(e)
            case Ok(rgba) => Ok((out, rgba))
  }

  /** `remove_background(input_path, output_path, model_size)`. */
  method RemoveBackground(input: Path, output: Option<Path>, size: string, ext: Externals)
    returns (r: Result<(Path, Rgba), Failure>)
    requires DetectionsFit(ext)
    ensures r == RemoveBackgroundResult(input, output, size, ext)
  {
    if !ext.inputExists {
      return Err(InputNotFound);
    }
    var out := OutputPathFor(input, output);
    if out.Err? {
      return Err(out.error);
    }
    if ext.decoded.None? {
      return Err(UnreadableImage);
    }
    var img := ext.decoded.value;
    var model := LoadWithFallback(size, ext.loadable);
    if model.Err? {
      return Err(model.error);
    }
    var rgba := Cutout(img, ext.detections, ext.smooth);
    if rgba.Err? {
      return Err(rgba.error);
    }
    r := Ok((out.value, rgba.value));
  }

  /**
   * `remove_background` succeeds exactly when the input exists, the output
   * path can be formed, the image decodes, some candidate weights load and
   * the smoothing keeps the mask's size; it then writes a path whose
   * lower-cased suffix is `.png` and an image of the source's size whose
   * alpha channel is 0 or 255. Failures surface in that order.
   */
  lemma RemoveBackgroundSpec(input: Path, output: Option<Path>, size: string, ext: Externals)
    requires DetectionsFit(ext)
    ensures var r := RemoveBackgroundResult(input, output, size, ext);
            r.Ok? <==> ext.inputExists && OutputPathFor(input, output).Ok? && ext.decoded.Some? &&
                       (exists i :: 0 <= i < 3 && Candidates(size)[i] in ext.loadable) &&
                       var img := ext.decoded.value;
                       IsGrid(ext.smooth(ExtractedGrid(ext.detections, img.height, img.width)), img.height, img.width)
    ensures var r := RemoveBackgroundResult(input, output, size, ext);
            !ext.inputExists ==> r == Err(InputNotFound)
    ensures var r := RemoveBackgroundResult(input, output, size, ext);
            ext.inputExists && OutputPathFor(input, output).Err? ==> r == Err(OutputPathFor(input, output).error)
    ensures var r := RemoveBackgroundResult(input, output, size, ext);
            ext.inputExists && OutputPathFor(input, output).Ok? && ext.decoded.None? ==> r == Err(UnreadableImage)
    ensures var r := RemoveBackgroundResult(input, output, size, ext);
            ext.inputExists && OutputPathFor(input, output).Ok? && ext.decoded.Some? &&
            (forall i :: 0 <= i < 3 ==> Candidates(size)[i] !in ext.loadable) ==>
              r == Err(ModelUnavailable("yolov8" + size + "-seg.pt"))
    ensures var r := RemoveBackgroundResult(input, output, size, ext);
            ext.inputExists && OutputPathFor(input, output).Ok? && ext.decoded.Some? &&
            (exists i :: 0 <= i < 3 && Candidates(size)[i] in ext.loadable) &&
            (var img := ext.decoded.value;
             !IsGrid(ext.smooth(ExtractedGrid(ext.detections, img.height, img.width)), img.height, img.width)) ==>
              r == Err(DimensionMismatch)
    ensures var r := RemoveBackgroundResult(input, output, size, ext);
            r.Ok? ==>
              var img := ext.decoded.value;
              Lower(Suffix(r.value.0.name)) == Png &&
              r.value.1.height == img.height && r.value.1.width == img.width &&
              forall y, x :: 0 <= y < img.height && 0 <= x < img.width ==>
                r.value.1.pixels[y][x].c3 == 0 || r.value.1.pixels[y][x].c3 == 255
  {
    if ext.inputExists && OutputPathFor(input, output).Ok? {
      OutputPathIsPng(input, output);
      if ext.decoded.Some? {
        var img := ext.decoded.value;
        CutoutSpec(img, ext.detections, ext.smooth);
      }
    }
  }

  /** The parsed command line: `input`, the positional `output`, the `-o/--output` value, `--model-size` and `--conf`. */
  datatype CliArgs = CliArgs(input: string, output: Option<string>, outputFlag: Option<string>, modelSize: string, conf: real)

  /** `args.output_alt if args.output_alt else args.output`: an absent or empty flag value is falsy. */
  function ChosenOutput(args: CliArgs): Option<string> {
    if args.outputFlag.Some? && args.outputFlag.value != "" then args.outputFlag else args.output
  }

  /** `0.0 <= args.conf <= 1.0`. */
  predicate ConfidenceAccepted(conf: real) {
    0.0 <= conf <= 1.0
  }

  /** A non-empty `-o` value overrides the positional output path; otherwise the positional one is used. */
  lemma ChosenOutputSpec(args: CliArgs)
    ensures args.outputFlag.Some? && args.outputFlag.value != "" ==> ChosenOutput(args) == args.outputFlag
    ensures args.outputFlag.None? || args.outputFlag == Some("") ==> ChosenOutput(args) == args.output
    ensures ChosenOutput(args).Some? ==> ChosenOutput(args) == args.outputFlag || ChosenOutput(args) == args.output
  {
  }

  function MapPath(s: Option<string>, parse: string -> Path): Option<Path> {
    match s
    case None => None
    case Some(v) => Some(parse(v))
  }

  /**
   * `main` after argument parsing: exit status 1 for a confidence outside
   * [0, 1], before any pipeline work; otherwise 0 when `remove_background`
   * returns and 1 when it raises. `parse` is the `Path(...)` constructor.
   */
  method RunCli(args: CliArgs, parse: string -> Path, ext: Externals) returns (status: int)
    requires DetectionsFit(ext)
    ensures !ConfidenceAccepted(args.conf) ==> status == 1
    ensures ConfidenceAccepted(args.conf) ==>
              status == if RemoveBackgroundResult(parse(args.input), MapPath(ChosenOutput(args), parse), args.modelSize, ext).Ok?
                        then 0 else 1
  {
    var output := ChosenOutput(args);
    if !ConfidenceAccepted(args.conf) {
      return 1;
    }
    var r := RemoveBackground(parse(args.input), MapPath(output, parse), args.modelSize, ext);
    status := if r.Ok? then 0 else 1;
  }
}
