# Background removal and resizing: a verified model

This project models the deterministic core of a small background-removal tool.
The tool has a command-line script, `remove_background.py`, and a Django backend,
`Backend/api/views.py`. Given the answer of a YOLO detector for one image, the
core does the following:

- builds a binary `h x w` mask. In segmentation mode it unions the thresholded
  instance masks. In box mode it fills the bounding rectangles. Otherwise the
  mask is left empty.
- re-binarises the mask after smoothing.
- stacks the mask as the alpha channel onto the red/blue-swapped image.

Around this pipeline sit the model-loading fallback chain (v11, then v10, then
v8), the backend's lazily filled model cache, the output-path rules of the
script, the command-line argument decisions, the confidence clamp of the web
view, the target-size rules of the resize endpoint and the output file names.

Modules, one per component:

- `Wrappers`: `Option` and `Result`.
- `Imaging`: bytes, pixels, grids, images and the exceptions of the code (`Failure`).
- `MaskExtraction`: `remove_background_yolo`. The two copies in the two files are identical, so one model serves both. The extractor is an imperative method over an `array2<byte>`, proved against the pixel function `ExtractedPixel`.
- `Compositing`: the re-threshold, the BGR to RGB swap, `np.dstack`, and the pixel work shared by both pipelines (`Cutout`).
- `OutputPaths`: `pathlib`'s `suffix`, `stem` and `with_suffix`, and the script's output-path derivation.
- `ModelLoading`: the candidate weights and the fallback chain.
- `RemoveBackgroundCli`: `remove_background` and the two decisions in `main`.
- `BackendViews`: `get_model` (a class `ModelCache` with the nullable field `model`), `process_image`, the confidence clamp, file names and `resize_image_file`.

Some collaborators are not modelled. They become inputs, collected in `RemoveBackgroundCli.Externals`:

- whether the input file exists;
- what the image decoder returned;
- which weight files load;
- what the detector found;
- what opening, closing and blurring do to a mask.

Where the design description and the code disagree, the model follows the code:

- A scaled size is truncated by `int()`, not rounded.
- The resize passthrough branch raises instead of copying (see Findings).
- The extractor does no class or confidence filtering of its own.
- A cached model is returned whatever size is asked for.
- A mask whose size differs from the image's is not checked up front. It fails inside `np.dstack`: `DimensionMismatch`.

## Model

| member | source | states |
|---|---|---|
| `MaskExtraction.ExtractedGrid` | remove_background.py:34-35 | the extracted mask is a grid of exactly the image's height and width, pixel by pixel the extractor's value |
| `MaskExtraction.MaxInto` | remove_background.py:53 | each cell becomes the maximum of its old value and `Threshold` of the instance value, which is 255 strictly above 0.5 and 0 otherwise |
| `MaskExtraction.FillBox` | remove_background.py:64 | cells inside the half-open box become 255; all others keep their value; slice ends are clipped to the array and a reversed slice is empty |
| `MaskExtraction.ExtractMask` | remove_background.py:16-70 | returns a fresh `h x w` array equal to the specification grid: threshold union in segmentation mode, box fill otherwise, zeros when nothing is detected |
| `MaskExtraction.SegUnionSpec` | remove_background.py:47-53 | in segmentation mode a pixel is 255 iff some instance value there is strictly greater than 0.5, else 0 (so exactly 0.5 gives 0) |
| `MaskExtraction.SegUnionOrderInsensitive` | Backend/api/views.py:59-62 | any reordering of the instance masks gives the same union at every pixel |
| `MaskExtraction.BoxUnionSpec` | remove_background.py:56-64 | in box mode a pixel is 255 iff some box `[y1,y2) x [x1,x2)` contains it, else 0 |
| `MaskExtraction.EmptyBoxChangesNothing` | Backend/api/views.py:66-68 | a box with `x2 <= x1` or `y2 <= y1`, at any position in the list, leaves the mask unchanged |
| `MaskExtraction.ExtractedPixelSpec` | Backend/api/views.py:53-68 | every pixel is 0 or 255. `ModeOf` decides on the first result only: non-empty instance masks give the threshold union, otherwise present boxes give the box union, otherwise zero |
| `MaskExtraction.BoxesIgnoredWithMasks` | remove_background.py:42-58 | when instance masks are present, the boxes do not influence the mask |
| `MaskExtraction.NothingDetectedMeansEmptyMask` | remove_background.py:65-70 | with no result, or neither masks nor boxes, the mask is all zero and no error is raised |
| `MaskExtraction.SingleBoxScenario` | Backend/api/views.py:64-68 | one box (10,10)-(50,50) on a 100 x 100 image gives 255 exactly inside that rectangle and 0 elsewhere |
| `Compositing.Rebinarise` | remove_background.py:153 | keeps the grid's shape, is binary whatever the blur produced, and a pixel is 255 iff its input exceeds 127 |
| `Compositing.RebinariseFixesBinary` | Backend/api/views.py:89 | re-binarising a mask that is already binary returns it unchanged |
| `Compositing.RebinariseIdempotent` | remove_background.py:152-153 | re-binarising twice equals re-binarising once |
| `Compositing.SwapRedBlue` | remove_background.py:110 | same size, each pixel with channels 0 and 2 exchanged |
| `Compositing.SwapRedBlueInvolution` | Backend/api/views.py:79 | swapping twice restores the source image |
| `Compositing.Compose` | remove_background.py:156-160 | succeeds iff the mask has the image's height and width, else DimensionMismatch; the result has 4 channels, the colour channels copied and channel 3 equal to the mask |
| `Compositing.Cutout` | Backend/api/views.py:82-92 | extracting in place, refining and composing yields exactly the specification value `CutoutOf` |
| `Compositing.CutoutSpec` | remove_background.py:143-160 | `CutoutOf` (extract, `Refine` = smooth then re-binarise, compose) succeeds iff smoothing kept the size and otherwise fails with DimensionMismatch; on success it has the image's size, channels 0-2 are the source with B and R swapped, and channel 3 is the re-binarised mask, 0 or 255 |
| `Compositing.NoDetectionIsTransparent` | remove_background.py:132-160 | when nothing is detected and the smoothed mask keeps the image's size with every value at or below 127, the cutout succeeds, alpha is all zero and the colour channels are the swapped source |
| `OutputPaths.PngNameSplits` | remove_background.py:100 | for a non-empty stem, `stem + ".png"` has suffix `.png` and stem `stem` |
| `OutputPaths.DefaultOutputSpec` | remove_background.py:94-95 | `DefaultOutput`, used when no output path is given, sits beside the input, has stem `input.stem + "_no_bg"` and suffix `.png` |
| `OutputPaths.NormaliseOutputSpec` | remove_background.py:96-100 | `NormaliseOutput` of a given path fails only for an empty name, with EmptyName; otherwise it keeps the parent, keeps a `.png` suffix of any case as is, and replaces any other suffix by `.png` keeping the stem |
| `OutputPaths.NormaliseOutputIdempotent` | remove_background.py:97-100 | normalising twice equals normalising once |
| `OutputPaths.OutputPathIsPng` | remove_background.py:93-100 | whichever branch `OutputPathFor` takes, the lower-cased suffix of the derived path is `.png` |
| `ModelLoading.LoadFirst` | remove_background.py:114-128 | loads iff some candidate loads, and then the first loadable one in order; otherwise the last candidate's failure propagates |
| `ModelLoading.Attempted` | Backend/api/views.py:33-39 | the names tried form a prefix of the candidate list; all but the last failed; the last loaded or was the final candidate |
| `ModelLoading.LoadedIsLastAttempted` | remove_background.py:116-127 | the loaded model is the last name tried; on failure every candidate was tried |
| `ModelLoading.SecondCandidateScenario` | remove_background.py:114-123 | if v11 fails and v10 loads, `LoadWithFallback` over `Candidates(size)` uses the v10 weights and never tries v8 |
| `BackendViews.NanoCandidates` | Backend/api/views.py:34-39 | with the default size `n`, `Candidates` is exactly `yolov11n-seg.pt`, `yolov10n-seg.pt`, `yolov8n-seg.pt`, in that order |
| `RemoveBackgroundCli.RemoveBackground` | remove_background.py:73-167 | returns exactly the specification value: the output path and the RGBA image, or the first exception in program order |
| `RemoveBackgroundCli.RemoveBackgroundSpec` | remove_background.py:87-160 | `RemoveBackgroundResult` succeeds iff the input exists, the output path forms, the image decodes, a candidate loads and smoothing keeps the size. Each failure is pinned, in this order: InputNotFound, the `with_suffix` error, UnreadableImage, the v8 candidate's load failure, DimensionMismatch. On success the path has suffix `.png` and the alpha is binary and of the image's size |
| `RemoveBackgroundCli.ChosenOutputSpec` | remove_background.py:232 | `ChosenOutput`: a non-empty `-o` value overrides the positional output; an absent or empty one falls back to it |
| `RemoveBackgroundCli.RunCli` | remove_background.py:231-248 | a confidence outside [0, 1] (`ConfidenceAccepted` fails) exits 1 before `remove_background` runs; otherwise exit 0 on success and 1 on any exception |
| `BackendViews.ModelCache.constructor` | Backend/api/views.py:25 | the cache starts empty, with no load attempted |
| `BackendViews.ModelCache.GetModel` | Backend/api/views.py:28-41 | returns `Acquire`: a cached model for any size, without loading. Otherwise v11, v10 and v8 are tried in order and a success is cached; the log of attempts ends with the loaded model. A total failure escapes, leaves the cache empty, and logs all three candidates |
| `BackendViews.FallbackThenReuse` | Backend/api/views.py:30-41 | after v11 fails and v10 loads, a second call for another size returns the same v10 model; only v11 and v10 were ever tried |
| `BackendViews.RetryAfterFailure` | Backend/api/views.py:31-39 | after every candidate fails, the next call loads afresh |
| `BackendViews.ProcessImage` | Backend/api/views.py:73-96 | an undecodable image fails before the cache is touched; otherwise the cache is updated as by `GetModel` and the result is the cutout or the model error |
| `BackendViews.ClampConfidence` | Backend/api/views.py:152 | the result lies in [0, 1], is the identity on in-range values, 0 below and 1 above |
| `BackendViews.RequestConfidence` | Backend/api/views.py:151-152 | the view's confidence lies in [0, 1] and is 0.25 when none is sent |
| `BackendViews.ClampSpec` | Backend/api/views.py:151-152 | clamping is idempotent and fixes exactly the values the command line accepts |
| `BackendViews.NoBackgroundNameSpec` | Backend/api/views.py:154 | `NoBackgroundName` starts with the id, ends in `_no_bg.png`, and has suffix `.png` |
| `BackendViews.ResizedNameSpec` | Backend/api/views.py:206 | `ResizedName` is the id, then `_resized_`, then the uploaded name unchanged |
| `BackendViews.NamesDetermineIdAndUpload` | Backend/api/views.py:142-143 | for ids of equal length, equal `UploadName`, `ResizedName` or `NoBackgroundName` values imply equal ids (and equal uploaded names) |
| `BackendViews.SizeSpecOfSpec` | Backend/api/views.py:103-114 | `SizeSpecOf`: scale takes precedence over width and height; exact mode needs both values; everything else is passthrough |
| `BackendViews.Trunc` | Backend/api/views.py:105-106 | Python `int()` truncates toward zero |
| `BackendViews.ScaledLengthSpec` | Backend/api/views.py:105 | `ScaledLength` with a non-negative scale is the floor of `length * scale / 100`, and at most the length up to 100 percent |
| `BackendViews.TargetSizeSpec` | Backend/api/views.py:103-110 | `TargetSize` gives those floors in both dimensions for a scale, and the given width and height in exact mode |
| `BackendViews.ResizeScenarios` | Backend/api/views.py:103-106 | 200 x 100 at scale 50 gives 100 x 50; width and height 64 give 64 x 64 |
| `BackendViews.Resample` | Backend/api/views.py:117 | resampling succeeds iff both target sides are at least 1, producing an image of exactly the target size; otherwise NonPositiveSize (Pillow's ValueError) |
| `BackendViews.TooSmallTargetRaises` | Backend/api/views.py:105-117 | a 1 x 1 image at scale 50, any image at scale 0, and width 0 all give a target side of 0, so the resize raises |
| `BackendViews.ResizeImageFileAsWritten` | Backend/api/views.py:99-118 | as written, the call fails iff the image cannot be opened, the passthrough branch is taken (NameError), or a target side is below 1 (NonPositiveSize); otherwise it resamples to `TargetSize` |
| `BackendViews.PassthroughRaisesAsWritten` | Backend/api/views.py:111-114 | as written, every request without a scale and without both dimensions raises NameError for `shutil` |
| `BackendViews.ResizeImageFile` | Backend/api/views.py:111-117 | corrected: fails iff the image cannot be opened or a resampling target side is below 1; the passthrough copies the input byte for byte |
| `BackendViews.ResizeImageFileSpec` | Backend/api/views.py:99-118 | the corrected resize copies the input in passthrough; everywhere else it agrees with the code as written and equals `Resample` to the target size |

## Left out

- YOLO inference and model-file loading. The detection result is an input, and loading is an oracle: the set of weight names that load at that moment.
- `cv2.resize` of instance masks to image resolution. Instance masks are required to be at image resolution already (`MasksAtResolution`).
- The float-to-int cast of box coordinates and numpy's negative-index wrap. Box coordinates are naturals.
- `cv2.morphologyEx` (opening, closing) and `cv2.GaussianBlur`. Together they are one opaque smoothing function. The model does not assume it keeps the mask's size: when it does not, `np.dstack` fails.
- `MaskExtraction.MaxInto`: numpy builds a new array for each `np.maximum` and rebinds `mask`. The model updates the one array cell by cell. No other reference to the array exists, so the values are the same.
- Image decoding and encoding: `cv2.imread`, `Image.open`, PNG and JPEG saving, and Lanczos resampling. The resize result records only the target size. Of Pillow's checks in `Image.resize`, only the rejection of a target side below 1 is modelled (`NonPositiveSize`).
- Float rounding. Confidences, scales and mask values are exact reals, and NaN is not represented.
- `OutputPaths.Lower`: only ASCII letters are lower-cased, not Unicode in general.
- `pathlib` string parsing (separators, `.` and `..`, trailing slashes). A path is a parent plus a final name, and `RunCli` takes the `Path(...)` constructor as a parameter. Suffix rules follow CPython up to 3.13.
- Django request handling, upload writing, directory creation, UUID generation, URLs, responses and input deletion on error. Also the string-to-number conversion of the `width`, `height`, `scale` and `confidence` form fields, and their truthiness test.
- The `health_check` view and the URL routing in `Backend/api/urls.py`: routing only.
- The race on the global model under concurrent first use, all `print` output, the mask statistics at remove_background.py:135-141 (diagnostics only), and `traceback`.
- `argparse` beyond the output choice and the confidence check. The `--model-size` choices and usage errors are not modelled.
- The detector's `conf` and `classes` arguments. They affect only the detector, which is an input.

## Findings

| source | as written | input that shows it | evidently intended | confidence | as-written member | corrected member |
|---|---|---|---|---|---|---|
| Backend/api/views.py:113 | the passthrough branch calls `shutil.copy`, but the module never imports `shutil` (imports at lines 4-10), so it raises NameError | a resize request with no `scale` and without both `width` and `height` | copy the input file to the output path unchanged | high; not executed | `BackendViews.PassthroughRaisesAsWritten` | `BackendViews.ResizeImageFileSpec` |
