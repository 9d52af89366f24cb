/**
 * Mask refinement and RGBA composition, shared by the command-line
 * `remove_background` and the backend's `process_image`: the extracted mask is
 * smoothed (morphological opening and closing, then a Gaussian blur, all
 * abstracted as one dimension-agnostic function), re-binarised at 127 and
 * stacked as the fourth channel onto the red/blue-swapped source image.
 */
module Compositing {
  import opened Wrappers
  import opened Imaging
  import opened MaskExtraction

  /** `(mask > 127).astype(np.uint8) * 255`: a binary grid of the same shape, whatever the smoothing produced. */
  function Rebinarise(m: Grid): (r: Grid)
    ensures |r| == |m| && forall y :: 0 <= y < |m| ==> |r[y]| == |m[y]|
    ensures IsBinary(r)
    ensures forall y, x :: 0 <= y < |m| && 0 <= x < |m[y]| ==> (r[y][x] == 255 <==> m[y][x] > 127)
  {
    seq(|m|, (y: int) requires 0 <= y < |m| =>
      seq(|m[y]|, (x: int) requires 0 <= x < |m[y]| => if m[y][x] > 127 then 255 else 0))
  }

  /** Re-binarising a mask that is already binary gives it back unchanged. */
  lemma RebinariseFixesBinary(m: Grid)
    requires IsBinary(m)
    ensures Rebinarise(m) == m
  {
    var r := Rebinarise(m);
    forall y | 0 <= y < |m| ensures r[y] == m[y] {
      assert |r[y]| == |m[y]|;
      forall x | 0 <= x < |m[y]| ensures r[y][x] == m[y][x] {
        assert m[y][x] == 0 || m[y][x] == 255;
      }
    }
  }

  /** Re-binarising is idempotent. */
  lemma RebinariseIdempotent(m: Grid)
    ensures Rebinarise(Rebinarise(m)) == Rebinarise(m)
  {
    RebinariseFixesBinary(Rebinarise(m));
  }

  /** `cv2.cvtColor(img, cv2.COLOR_BGR2RGB)`: channels 0 and 2 trade places. */
  function SwapRedBlue(img: Image): (r: Image)
    ensures r.height == img.height && r.width == img.width
    ensures forall y, x :: 0 <= y < img.height && 0 <= x < img.width ==>
              var p := img.pixels[y][x]; r.pixels[y][x] == Px3(p.c2, p.c1, p.c0)
  {
    Image(img.height, img.width,
      seq(img.height, (y: int) requires 0 <= y < img.height =>
        seq(img.width, (x: int) requires 0 <= x < img.width =>
          var p := img.pixels[y][x]; Px3(p.c2, p.c1, p.c0))))
  }

  /** Swapping red and blue twice restores the image. */
  lemma SwapRedBlueInvolution(img: Image)
    ensures SwapRedBlue(SwapRedBlue(img)) == img
  {
    var r := SwapRedBlue(SwapRedBlue(img));
    SameGrid(r.pixels, img.pixels, img.height, img.width);
  }

  /** `np.dstack((rgb, alpha))`: fails unless the mask has the image's height and width. */
  function Compose(rgb: Image, alpha: Grid): (r: Result<Rgba, Failure>)
    ensures r.Ok? <==> IsGrid(alpha, rgb.height, rgb.width)
    ensures r.Err? ==> r.error == DimensionMismatch
    ensures r.Ok? ==> r.value.height == rgb.height && r.value.width == rgb.width
                      && IsGrid(r.value.pixels, rgb.height, rgb.width)
    ensures r.Ok? ==> forall y, x :: 0 <= y < rgb.height && 0 <= x < rgb.width ==>
              var p := rgb.pixels[y][x];
              r.value.pixels[y][x] == Px4(p.c0, p.c1, p.c2, alpha[y][x])
  {
    if !IsGrid(alpha, rgb.height, rgb.width) then Err(DimensionMismatch)
    else
      Ok(Rgba(rgb.height, rgb.width,
        seq(rgb.height, (y: int) requires 0 <= y < rgb.height =>
          seq(rgb.width, (x: int) requires 0 <= x < rgb.width =>
            var p := rgb.pixels[y][x]; Px4(p.c0, p.c1, p.c2, alpha[y][x])))))
  }

  /** The smoothing steps followed by the re-threshold. */
  function Refine(mask: Grid, smooth: Grid -> Grid): Grid {
    Rebinarise(smooth(mask))
  }

  /** Extraction, refinement and composition of one decoded image, as a value. */
  function CutoutOf(img: Image, results: seq<Detection>, smooth: Grid -> Grid): Result<Rgba, Failure>
    requires MasksAtResolution(results, img.height, img.width)
  {
    Compose(SwapRedBlue(img), Refine(ExtractedGrid(results, img.height, img.width), smooth))
  }

  /** Pixel work of one request: extract the mask in place, refine it, compose the RGBA result. */
  method Cutout(img: Image, results: seq<Detection>, smooth: Grid -> Grid) returns (r: Result<Rgba, Failure>)
    requires MasksAtResolution(results, img.height, img.width)
    ensures r == CutoutOf(img, results, smooth)
  {
    var mask := ExtractMask(img, results);
    var refined := Refine(GridOf(mask), smooth);
    r := Compose(SwapRedBlue(img), refined);
  }

  /**
   * What a cutout is: it succeeds exactly when the smoothing kept the image's
   * size; then it has the image's size, channels 0-2 are the source pixel with
   * blue and red swapped, and channel 3 is the re-binarised mask, so 0 or 255.
   */
  lemma CutoutSpec(img: Image, results: seq<Detection>, smooth: Grid -> Grid)
    requires MasksAtResolution(results, img.height, img.width)
    ensures var mask := ExtractedGrid(results, img.height, img.width);
            CutoutOf(img, results, smooth).Ok? <==> IsGrid(smooth(mask), img.height, img.width)
    ensures CutoutOf(img, results, smooth).Err? ==> CutoutOf(img, results, smooth).error == DimensionMismatch
    ensures var r := CutoutOf(img, results, smooth);
            var alpha := Refine(ExtractedGrid(results, img.height, img.width), smooth);
            r.Ok? ==>
              r.value.height == img.height && r.value.width == img.width &&
              IsGrid(r.value.pixels, img.height, img.width) &&
              forall y, x :: 0 <= y < img.height && 0 <= x < img.width ==>
                var p := img.pixels[y][x]; var q := r.value.pixels[y][x];
                q.c0 == p.c2 && q.c1 == p.c1 && q.c2 == p.c0 && q.c3 == alpha[y][x] &&
                (q.c3 == 0 || q.c3 == 255)
  {
    var mask := ExtractedGrid(results, img.height, img.width);
    var alpha := Refine(mask, smooth);
    var rgb := SwapRedBlue(img);
    assert IsGrid(alpha, img.height, img.width) <==> IsGrid(smooth(mask), img.height, img.width);
  }

  /**
   * With nothing detected, and a smoothing that keeps an all-zero mask at or
   * below 127, the result is fully transparent and its colour channels are
   * the swapped source.
   */
  lemma NoDetectionIsTransparent(img: Image, results: seq<Detection>, smooth: Grid -> Grid)
    requires ModeOf(results).EmptyMode?
    requires var s := smooth(ExtractedGrid(results, img.height, img.width));
             IsGrid(s, img.height, img.width) &&
             forall y, x :: 0 <= y < img.height && 0 <= x < img.width ==> s[y][x] <= 127
    ensures MasksAtResolution(results, img.height, img.width)
    ensures var r := CutoutOf(img, results, smooth);
            r.Ok? && forall y, x :: 0 <= y < img.height && 0 <= x < img.width ==>
              r.value.pixels[y][x] == Px4(img.pixels[y][x].c2, img.pixels[y][x].c1, img.pixels[y][x].c0, 0)
  {
    CutoutSpec(img, results, smooth);
  }
}
