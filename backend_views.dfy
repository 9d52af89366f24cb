/**
 * The web backend's view module: the process-wide model cache behind
 * `get_model`, `process_image`, the size resolution of `resize_image_file`,
 * the confidence clamp of the remove-background view and the file names both
 * views build from an 8-character request id.
 */
module BackendViews {
  import opened Wrappers
  import opened Imaging
  import opened MaskExtraction
  import opened Compositing
  import opened OutputPaths
  import opened ModelLoading
  import opened RemoveBackgroundCli

  // ---------------------------------------------------------------------------
  // The model cache
  // ---------------------------------------------------------------------------

  /** `process_image` calls `get_model()` without arguments, so with size `n`. */
  const DefaultSize: string := "n"

  /** What `get_model` returns given the cached model: that model if there is one, else a fresh fallback load. */
  function Acquire(cached: Option<Model>, size: string, loadable: set<string>): Result<Model, Failure> {
    if cached.Some? then Ok(cached.value) else LoadWithFallback(size, loadable)
  }

  /** The module-level `_model`, lazily filled by `get_model`. */
  class ModelCache {
    var model: Option<Model>
    /** Every weight name `get_model` has tried to load, in order. */
    ghost var attempts: seq<string>

    /** `_model = None` at import time. */
    constructor ()
      ensures model == None && attempts == []
    {
      model := None;
      attempts := [];
    }

    /**
     * `get_model(model_size)`: a cached model is returned as is, whatever the
     * size, and nothing is loaded; otherwise v11, v10, v8 are tried, the
     * first that loads is cached, and if none loads the exception escapes
     * and the cache stays empty, so the next call tries again.
     */
    method GetModel(size: string, loadable: set<string>) returns (r: Result<Model, Failure>)
      modifies this
      ensures r == Acquire(old(model), size, loadable)
      ensures model == if r.Ok? then Some(r.value) else None
      ensures attempts == old(attempts) + if old(model).Some? then [] else Attempted(Candidates(size), loadable)
      ensures old(model).None? && r.Ok? ==> |attempts| > 0 && r.value == Model(attempts[|attempts| - 1])
      ensures r.Err? ==> attempts == old(attempts) + Candidates(size)
    {
      if model.None? {
        LoadedIsLastAttempted(Candidates(size), loadable);
        attempts := attempts + Attempted(Candidates(size), loadable);
        var loaded := LoadWithFallback(size, loadable);
        if loaded.Err? {
          return Err(loaded.error);
        }
        model := Some(loaded.value);
      }
      r := Ok(model.value);
    }
  }

  lemma NanoCandidates()
    ensures Candidates(DefaultSize) == ["yolov11n-seg.pt", "yolov10n-seg.pt", "yolov8n-seg.pt"]
  {
    var c := Candidates(DefaultSize);
    assert c[0] == "yolov11n-seg.pt";
    assert c[1] == "yolov10n-seg.pt";
    assert c[2] == "yolov8n-seg.pt";
  }

  /**
   * The first request finds v11 missing and loads v10; a second request,
   * even for another size and with nothing loadable, gets the same model
   * and loads nothing.
   */
  method FallbackThenReuse(loadable: set<string>) returns (first: Result<Model, Failure>, second: Result<Model, Failure>, ghost tried: seq<string>)
    requires "yolov11n-seg.pt" !in loadable && "yolov10n-seg.pt" in loadable
    ensures first == Ok(Model("yolov10n-seg.pt")) && second == first
    ensures tried == ["yolov11n-seg.pt", "yolov10n-seg.pt"]
  {
    NanoCandidates();
    var cache := new ModelCache();
    first := cache.GetModel(DefaultSize, loadable);
    second := cache.GetModel("x", {});
    tried := cache.attempts;
  }

  /** When every candidate fails, the cache stays empty and the next call loads afresh. */
  method RetryAfterFailure(later: set<string>) returns (first: Result<Model, Failure>, second: Result<Model, Failure>)
    requires "yolov11n-seg.pt" in later
    ensures first == Err(ModelUnavailable("yolov8n-seg.pt"))
    ensures second == Ok(Model("yolov11n-seg.pt"))
  {
    NanoCandidates();
    var cache := new ModelCache();
    first := cache.GetModel(DefaultSize, {});
    second := cache.GetModel(DefaultSize, later);
  }

  // ---------------------------------------------------------------------------
  // process_image
  // ---------------------------------------------------------------------------

  /**
   * `process_image`: an undecodable image fails before the model is touched;
   * otherwise the cached (or freshly loaded) model must be available and the
   * result is the cutout of the decoded image.
   */
  method ProcessImage(cache: ModelCache, ext: Externals) returns (r: Result<Rgba, Failure>)
    requires DetectionsFit(ext)
    modifies cache
    ensures ext.decoded.None? ==>
              r == Err(UnreadableImage) && cache.model == old(cache.model) && cache.attempts == old(cache.attempts)
    ensures ext.decoded.Some? ==>
              var m := Acquire(old(cache.model), DefaultSize, ext.loadable);
              cache.model == (if m.Ok? then Some(m.value) else None) &&
              cache.attempts == old(cache.attempts) + (if old(cache.model).Some? then [] else Attempted(Candidates(DefaultSize), ext.loadable)) &&
              r == if m.Err? then Err(m.error) else CutoutOf(ext.decoded.value, ext.detections, ext.smooth)
  {
    if ext.decoded.None? {
      return Err(UnreadableImage);
    }
    var img := ext.decoded.value;
    var model := cache.GetModel(DefaultSize, ext.loadable);
    if model.Err? {
      return Err(model.error);
    }
    r := Cutout(img, ext.detections, ext.smooth);
  }

  // ---------------------------------------------------------------------------
  // Request parameters and file names
  // ---------------------------------------------------------------------------

  /** `max(0.0, min(1.0, c))` with Python's `min` and `max` on two arguments. */
  function ClampConfidence(c: real): (r: real)
    ensures 0.0 <= r <= 1.0
    ensures 0.0 <= c <= 1.0 ==> r == c
    ensures c < 0.0 ==> r == 0.0
    ensures c > 1.0 ==> r == 1.0
  {
    var low := if c < 1.0 then c else 1.0;
    if low > 0.0 then low else 0.0
  }

  /** The view's confidence: the request's value, 0.25 when absent, clamped. */
  function RequestConfidence(given: Option<real>): (r: real)
    ensures 0.0 <= r <= 1.0
    ensures given.None? ==> r == 0.25
  {
    ClampConfidence(given.GetOr(0.25))
  }

  /** Clamping is idempotent, and it leaves a value alone exactly when the command line would accept it. */
  lemma ClampSpec(c: real)
    ensures ClampConfidence(ClampConfidence(c)) == ClampConfidence(c)
    ensures ClampConfidence(c) == c <==> ConfidenceAccepted(c)
  {
  }

  /** `f"{unique_id}_{image_file.name}"`, where an upload is stored. */
  function UploadName(id: string, name: string): string {
    id + "_" + name
  }

  /** `f"{unique_id}_no_bg.png"`. */
  function NoBackgroundName(id: string): string {
    id + "_no_bg" + Png
  }

  /** `f"{unique_id}_resized_{image_file.name}"`. */
  function ResizedName(id: string, name: string): string {
    id + "_resized_" + name
  }

  /** The remove-background output name starts with the id, ends in `_no_bg.png`, and its suffix is `.png`. */
  lemma NoBackgroundNameSpec(id: string)
    ensures var n := NoBackgroundName(id);
            n[..|id|] == id && n[|id|..] == "_no_bg.png" && Suffix(n) == Png
  {
    var n := NoBackgroundName(id);
    assert n == (id + "_no_bg") + Png;
    PngNameSplits(id + "_no_bg");
    assert n[|id|..] == "_no_bg.png";
  }

  /** The resize output name starts with the id and ends with the uploaded name. */
  lemma ResizedNameSpec(id: string, name: string)
    ensures var n := ResizedName(id, name);
            n[..|id|] == id && n[|id|..|id| + 9] == "_resized_" && n[|id| + 9..] == name
  {
  }

  /** Ids of one length (eight characters in the views) name their files unambiguously. */
  lemma NamesDetermineIdAndUpload(id1: string, name1: string, id2: string, name2: string)
    requires |id1| == |id2|
    ensures ResizedName(id1, name1) == ResizedName(id2, name2) ==> id1 == id2 && name1 == name2
    ensures UploadName(id1, name1) == UploadName(id2, name2) ==> id1 == id2 && name1 == name2
    ensures NoBackgroundName(id1) == NoBackgroundName(id2) ==> id1 == id2
  {
    if ResizedName(id1, name1) == ResizedName(id2, name2) {
      ResizedNameSpec(id1, name1);
      ResizedNameSpec(id2, name2);
    }
    if UploadName(id1, name1) == UploadName(id2, name2) {
      var u1, u2 := UploadName(id1, name1), UploadName(id2, name2);
      assert u1[..|id1|] == id1 && u2[..|id2|] == id2;
      assert u1[|id1| + 1..] == name1 && u2[|id2| + 1..] == name2;
    }
    if NoBackgroundName(id1) == NoBackgroundName(id2) {
      NoBackgroundNameSpec(id1);
      NoBackgroundNameSpec(id2);
    }
  }

  // ---------------------------------------------------------------------------
  // resize_image_file
  // ---------------------------------------------------------------------------

  /** How the target size is given: `scale` wins, then exact `width` and `height`, else nothing. */
  datatype SizeSpec = Scale(percent: real) | Dimensions(width: int, height: int) | Unspecified

  function SizeSpecOf(width: Option<int>, height: Option<int>, scale: Option<real>): SizeSpec {
    if scale.Some? then Scale(scale.value)
    else if width.Some? && height.Some? then Dimensions(width.value, height.value)
    else Unspecified
  }

  /** Scale takes precedence; exact mode needs both values; anything else is the passthrough branch. */
  lemma SizeSpecOfSpec(width: Option<int>, height: Option<int>, scale: Option<real>)
    ensures SizeSpecOf(width, height, scale).Scale? <==> scale.Some?
    ensures scale.Some? ==> SizeSpecOf(width, height, scale) == SizeSpecOf(None, None, scale)
    ensures SizeSpecOf(width, height, scale).Dimensions? <==> scale.None? && width.Some? && height.Some?
    ensures SizeSpecOf(width, height, scale).Unspecified? <==> scale.None? && (width.None? || height.None?)
  {
  }

  /** Python's `int()` on a float: truncation toward zero. */
  function Trunc(r: real): (i: int)
    ensures 0.0 <= r ==> i as real <= r < i as real + 1.0
    ensures r < 0.0 ==> i as real - 1.0 < r <= i as real
  {
    if r >= 0.0 then r.Floor else -((-r).Floor)
  }

  /** The decoded image's size as `PIL.Image` reports it. */
  datatype Dims = Dims(width: nat, height: nat)

  /** `length * (scale / 100)` in exact arithmetic. */
  function ExactScaled(length: nat, percent: real): real {
    length as real * (percent / 100.0)
  }

  /** A non-negative percentage of a length is non-negative, and at most the length up to 100 percent. */
  lemma ExactScaledBounds(length: nat, percent: real)
    requires percent >= 0.0
    ensures 0.0 <= ExactScaled(length, percent)
    ensures percent <= 100.0 ==> ExactScaled(length, percent) <= length as real
  {
    var v, q := length as real, percent / 100.0;
    assert 0.0 <= v * q;
    if q <= 1.0 {
      assert v * (1.0 - q) >= 0.0;
    }
  }

  /** `int(length * (scale / 100))`. */
  function ScaledLength(length: nat, percent: real): int {
    Trunc(ExactScaled(length, percent))
  }

  /** For a non-negative scale the scaled length is the floor of the exact product, at most the length up to 100 percent. */
  lemma ScaledLengthSpec(length: nat, percent: real)
    requires percent >= 0.0
    ensures var r := ScaledLength(length, percent);
            0 <= r && r as real <= ExactScaled(length, percent) < r as real + 1.0 &&
            (percent <= 100.0 ==> r <= length)
  {
    ExactScaledBounds(length, percent);
  }

  /** Lines 103-110: the target size of a resampling resize. */
  function TargetSize(src: Dims, spec: SizeSpec): (int, int)
    requires !spec.Unspecified?
  {
    match spec
    case Scale(p) => (ScaledLength(src.width, p), ScaledLength(src.height, p))
    case Dimensions(w, h) => (w, h)
  }

  /**
   * A scaled target is, in each dimension, the floor of the exact product and
   * no larger than the source up to 100 percent; exact mode takes the given
   * width and height as they are.
   */
  lemma TargetSizeSpec(src: Dims, spec: SizeSpec)
    requires !spec.Unspecified?
    requires spec.Scale? ==> spec.percent >= 0.0
    ensures spec.Scale? ==>
              var (w, h) := TargetSize(src, spec);
              0 <= w && w as real <= ExactScaled(src.width, spec.percent) < w as real + 1.0 &&
              0 <= h && h as real <= ExactScaled(src.height, spec.percent) < h as real + 1.0 &&
              (spec.percent <= 100.0 ==> w <= src.width && h <= src.height)
    ensures spec.Dimensions? ==> TargetSize(src, spec) == (spec.width, spec.height)
  {
    if spec.Scale? {
      ScaledLengthSpec(src.width, spec.percent);
      ScaledLengthSpec(src.height, spec.percent);
    }
  }

  /** A 200 x 100 image at 50 percent becomes 100 x 50; with 64 and 64 it becomes 64 x 64. */
  lemma ResizeScenarios()
    ensures TargetSize(Dims(200, 100), SizeSpecOf(None, None, Some(50.0))) == (100, 50)
    ensures TargetSize(Dims(200, 100), SizeSpecOf(Some(64), Some(64), None)) == (64, 64)
  {
    assert 200.0 * 50.0 / 100.0 == 100.0;
    assert 100.0 * 50.0 / 100.0 == 50.0;
  }

  /** What a resize leaves at the output path: a resampled image of a given size, or a verbatim copy. */
  datatype ResizeOutcome = Resampled(width: int, height: int) | Copied(contents: seq<byte>)

  /** Whether both sides of the target size are at least 1, as `Image.resize` demands. */
  predicate PositiveTarget(src: Dims, spec: SizeSpec)
    requires !spec.Unspecified?
  {
    TargetSize(src, spec).0 >= 1 && TargetSize(src, spec).1 >= 1
  }

  /** `img.resize((width, height), LANCZOS)`: a target side below 1 raises ValueError. */
  function Resample(src: Dims, spec: SizeSpec): (r: Result<ResizeOutcome, Failure>)
    requires !spec.Unspecified?
    ensures r.Ok? <==> PositiveTarget(src, spec)
    ensures r.Err? ==> r.error == NonPositiveSize
    ensures r.Ok? ==> r.value == Resampled(TargetSize(src, spec).0, TargetSize(src, spec).1)
  {
    var (w, h) := TargetSize(src, spec);
    if w < 1 || h < 1 then Err(NonPositiveSize) else Ok(Resampled(w, h))
  }

  /** A 1 x 1 image at 50 percent, or any image at scale 0, has a target side of 0, which the resampler rejects. */
  lemma TooSmallTargetRaises(contents: seq<byte>, src: Dims)
    ensures ResizeImageFile(contents, Some(Dims(1, 1)), None, None, Some(50.0)) == Err(NonPositiveSize)
    ensures ResizeImageFile(contents, Some(src), None, None, Some(0.0)) == Err(NonPositiveSize)
    ensures ResizeImageFile(contents, Some(src), Some(0), Some(64), None) == Err(NonPositiveSize)
  {
    assert ExactScaled(1, 50.0) == 0.5;
    assert ExactScaled(src.width, 0.0) == 0.0;
  }

  /**
   * `resize_image_file` as written: the passthrough branch calls
   * `shutil.copy`, but the module never imports `shutil`, so it raises.
   * Resampling rejects a target width or height below 1.
   */
  function ResizeImageFileAsWritten(contents: seq<byte>, decoded: Option<Dims>,
                                    width: Option<int>, height: Option<int>, scale: Option<real>): (r: Result<ResizeOutcome, Failure>)
    ensures r.Err? <==> decoded.None? || (scale.None? && (width.None? || height.None?)) ||
                        !PositiveTarget(decoded.value, SizeSpecOf(width, height, scale))
    ensures r.Err? && decoded.Some? && !SizeSpecOf(width, height, scale).Unspecified? ==> r.error == NonPositiveSize
    ensures r.Ok? ==> r.value == Resampled(TargetSize(decoded.value, SizeSpecOf(width, height, scale)).0,
                                           TargetSize(decoded.value, SizeSpecOf(width, height, scale)).1)
  {
    match decoded
    case None => Err(UnreadableImage)
    case Some(src) =>
      var spec := SizeSpecOf(width, height, scale);
      if spec.Unspecified? then Err(NameNotDefined("shutil"))
      else Resample(src, spec)
  }

  /** `resize_image_file` with the passthrough copying the input as intended. */
  function ResizeImageFile(contents: seq<byte>, decoded: Option<Dims>,
                           width: Option<int>, height: Option<int>, scale: Option<real>): (r: Result<ResizeOutcome, Failure>)
    ensures r.Err? <==> decoded.None? ||
                        (!SizeSpecOf(width, height, scale).Unspecified? && !PositiveTarget(decoded.value, SizeSpecOf(width, height, scale)))
    ensures r.Ok? ==> (r.value.Copied? <==> scale.None? && (width.None? || height.None?))
    ensures r.Ok? && r.value.Copied? ==> r.value.contents == contents
  {
    match decoded
    case None => Err(UnreadableImage)
    case Some(src) =>
      var spec := SizeSpecOf(width, height, scale);
      if spec.Unspecified? then Ok(Copied(contents))
      else Resample(src, spec)
  }

  lemma PassthroughRaisesAsWritten(contents: seq<byte>, src: Dims, width: Option<int>, height: Option<int>)
    requires width.None? || height.None?
    ensures ResizeImageFileAsWritten(contents, Some(src), width, height, None) == Err(NameNotDefined("shutil"))
  {
  }

  /**
   * The corrected resize: the passthrough output is byte-identical to the
   * input, and everywhere else it agrees with the code as written, resampling
   * to the target size.
   */
  lemma ResizeImageFileSpec(contents: seq<byte>, decoded: Option<Dims>,
                            width: Option<int>, height: Option<int>, scale: Option<real>)
    ensures var r := ResizeImageFile(contents, decoded, width, height, scale);
            decoded.None? ==> r == Err(UnreadableImage)
    ensures var r := ResizeImageFile(contents, decoded, width, height, scale);
            decoded.Some? && scale.None? && (width.None? || height.None?) ==> r == Ok(Copied(contents))
    ensures var r := ResizeImageFile(contents, decoded, width, height, scale);
            decoded.Some? && (scale.Some? || (width.Some? && height.Some?)) ==>
              r == ResizeImageFileAsWritten(contents, decoded, width, height, scale) &&
              r == Resample(decoded.value, SizeSpecOf(width, height, scale))
  {
  }
}
