/**
 * Mask extraction (`remove_background_yolo`, present with the same body in
 * the command-line script and in the web backend). The detector's answer is
 * an input: a list of per-image results of which only the first is read.
 * It holds optional per-instance segmentation masks (already at image
 * resolution) and optional bounding boxes (already truncated to integers).
 */
module MaskExtraction {
  import opened Wrappers
  import opened Imaging

  /** A per-instance segmentation mask: float membership values, one per pixel. */
  type SegMask = seq<seq<real>>

  /** A bounding box `xyxy` after the cast to integers; it covers `[y1, y2) x [x1, x2)`. */
  datatype Box = Box(x1: nat, y1: nat, x2: nat, y2: nat)

  /** One detection result: `masks` is `None` when the model gives no segmentation, likewise `boxes`. */
  datatype Detection = Detection(masks: Option<seq<SegMask>>, boxes: Option<seq<Box>>)

  /** Which branch of the extractor a detection list selects. */
  datatype Mode = SegmentationMode(instances: seq<SegMask>) | BoxMode(boxes: seq<Box>) | EmptyMode

  function ModeOf(results: seq<Detection>): Mode {
    if |results| == 0 then EmptyMode
    else if results[0].masks.Some? && |results[0].masks.value| > 0 then SegmentationMode(results[0].masks.value)
    else if results[0].boxes.Some? && |results[0].boxes.value| > 0 then BoxMode(results[0].boxes.value)
    else EmptyMode
  }

  /** Every instance mask is an `h x w` grid. */
  predicate Covers(ms: seq<SegMask>, h: nat, w: nat) {
    forall k :: 0 <= k < |ms| ==> IsGrid(ms[k], h, w)
  }

  /** The instance masks that will be read are at image resolution. */
  predicate MasksAtResolution(results: seq<Detection>, h: nat, w: nat) {
    ModeOf(results).SegmentationMode? ==> Covers(ModeOf(results).instances, h, w)
  }

  function Max(a: byte, b: byte): byte {
    if a >= b then a else b
  }

  /** `(seg_mask > 0.5).astype(np.uint8) * 255` at one pixel. */
  function Threshold(v: real): byte {
    if v > 0.5 then 255 else 0
  }

  /** The running `np.maximum` over the thresholded instance masks, in list order. */
  function SegUnion(ms: seq<SegMask>, h: nat, w: nat, y: nat, x: nat): byte
    requires Covers(ms, h, w) && y < h && x < w
  {
    if |ms| == 0 then 0
    else Max(SegUnion(ms[..|ms| - 1], h, w, y, x), Threshold(ms[|ms| - 1][y][x]))
  }

  predicate InBox(b: Box, y: nat, x: nat) {
    b.y1 <= y < b.y2 && b.x1 <= x < b.x2
  }

  /** The value left by `mask[y1:y2, x1:x2] = 255` for each box in turn, starting from zero. */
  function BoxUnion(bs: seq<Box>, y: nat, x: nat): byte {
    if |bs| == 0 then 0
    else if InBox(bs[|bs| - 1], y, x) then 255
    else BoxUnion(bs[..|bs| - 1], y, x)
  }

  /** The extracted mask at pixel `(y, x)`. */
  function ExtractedPixel(results: seq<Detection>, h: nat, w: nat, y: nat, x: nat): byte
    requires MasksAtResolution(results, h, w) && y < h && x < w
  {
    match ModeOf(results)
    case SegmentationMode(ms) => SegUnion(ms, h, w, y, x)
    case BoxMode(bs) => BoxUnion(bs, y, x)
    case EmptyMode => 0
  }

  /** The whole extracted mask as a grid. */
  function ExtractedGrid(results: seq<Detection>, h: nat, w: nat): (g: Grid)
    requires MasksAtResolution(results, h, w)
    ensures IsGrid(g, h, w)
    ensures forall y, x :: 0 <= y < h && 0 <= x < w ==> g[y][x] == ExtractedPixel(results, h, w, y, x)
  {
    seq(h, (y: int) requires 0 <= y < h => seq(w, (x: int) requires 0 <= x < w => ExtractedPixel(results, h, w, y, x)))
  }

  /** The values of a 2-D array as a grid of rows. */
  function GridOf(a: array2<byte>): (g: Grid)
    reads a
    ensures IsGrid(g, a.Length0, a.Length1)
    ensures forall y, x :: 0 <= y < a.Length0 && 0 <= x < a.Length1 ==> g[y][x] == a[y, x]
  {
    seq(a.Length0, (y: int) reads a requires 0 <= y < a.Length0 =>
      seq(a.Length1, (x: int) reads a requires 0 <= x < a.Length1 => a[y, x]))
  }

  // ---------------------------------------------------------------------------
  // The imperative extractor
  // ---------------------------------------------------------------------------

  /** `mask = np.maximum(mask, (seg > 0.5).astype(np.uint8) * 255)`, done cell by cell. */
  method MaxInto(mask: array2<byte>, seg: SegMask)
    requires IsGrid(seg, mask.Length0, mask.Length1)
    modifies mask
    ensures forall y, x :: 0 <= y < mask.Length0 && 0 <= x < mask.Length1 ==>
              mask[y, x] == Max(old(mask[y, x]), Threshold(seg[y][x]))
  {
    for y := 0 to mask.Length0
      invariant forall i, j :: 0 <= i < y && 0 <= j < mask.Length1 ==>
                  mask[i, j] == Max(old(mask[i, j]), Threshold(seg[i][j]))
      invariant forall i, j :: y <= i < mask.Length0 && 0 <= j < mask.Length1 ==> mask[i, j] == old(mask[i, j])
    {
      for x := 0 to mask.Length1
        invariant forall i, j :: 0 <= i < y && 0 <= j < mask.Length1 ==>
                    mask[i, j] == Max(old(mask[i, j]), Threshold(seg[i][j]))
        invariant forall j :: 0 <= j < x ==> mask[y, j] == Max(old(mask[y, j]), Threshold(seg[y][j]))
        invariant forall j :: x <= j < mask.Length1 ==> mask[y, j] == old(mask[y, j])
        invariant forall i, j :: y < i < mask.Length0 && 0 <= j < mask.Length1 ==> mask[i, j] == old(mask[i, j])
      {
        mask[y, x] := Max(mask[y, x], Threshold(seg[y][x]));
      }
    }
  }

  function Min(a: nat, b: nat): nat {
    if a <= b then a else b
  }

  /** `mask[y1:y2, x1:x2] = 255`: Python slices clip their ends to the array and are empty when reversed. */
  method FillBox(mask: array2<byte>, b: Box)
    modifies mask
    ensures forall y, x :: 0 <= y < mask.Length0 && 0 <= x < mask.Length1 ==>
              mask[y, x] == if InBox(b, y, x) then 255 else old(mask[y, x])
  {
    var top := Min(b.y1, mask.Length0);
    var bottom := if Min(b.y2, mask.Length0) < top then top else Min(b.y2, mask.Length0);
    var left := Min(b.x1, mask.Length1);
    var right := if Min(b.x2, mask.Length1) < left then left else Min(b.x2, mask.Length1);
    for y := top to bottom
      invariant forall i, j :: 0 <= i < mask.Length0 && 0 <= j < mask.Length1 ==>
                  mask[i, j] == if top <= i < y && left <= j < right then 255 else old(mask[i, j])
    {
      for x := left to right
        invariant forall i, j :: 0 <= i < mask.Length0 && 0 <= j < mask.Length1 ==>
                    mask[i, j] == if (top <= i < y && left <= j < right) || (i == y && left <= j < x) then 255 else old(mask[i, j])
      {
        mask[y, x] := 255;
      }
    }
  }

  /**
   * `remove_background_yolo`: start from an all-zero `h x w` mask; union the
   * thresholded instance masks if there are any, else fill the boxes if there
   * are any, else leave the mask empty.
   */
  method ExtractMask(img: Image, results: seq<Detection>) returns (mask: array2<byte>)
    requires MasksAtResolution(results, img.height, img.width)
    ensures fresh(mask)
    ensures mask.Length0 == img.height && mask.Length1 == img.width
    ensures GridOf(mask) == ExtractedGrid(results, img.height, img.width)
  {
    var h, w := img.height, img.width;
    mask := new byte[h, w]((y, x) => 0);
    if |results| > 0 {
      var result := results[0];
      if result.masks.Some? && |result.masks.value| > 0 {
        var ms := result.masks.value;
        for i := 0 to |ms|
          invariant forall y, x :: 0 <= y < h && 0 <= x < w ==> mask[y, x] == SegUnion(ms[..i], h, w, y, x)
        {
          MaxInto(mask, ms[i]);
          assert ms[..i + 1][..i] == ms[..i];
        }
        assert ms[..|ms|] == ms;
      } else if result.boxes.Some? && |result.boxes.value| > 0 {
        var bs := result.boxes.value;
        for i := 0 to |bs|
          invariant forall y, x :: 0 <= y < h && 0 <= x < w ==> mask[y, x] == BoxUnion(bs[..i], y, x)
        {
          FillBox(mask, bs[i]);
          assert bs[..i + 1][..i] == bs[..i];
        }
        assert bs[..|bs|] == bs;
      }
    }
    SameGrid(GridOf(mask), ExtractedGrid(results, h, w), h, w);
  }

  /** Two `h x w` grids with the same cells are equal. */
  lemma SameGrid<T>(a: seq<seq<T>>, b: seq<seq<T>>, h: nat, w: nat)
    requires IsGrid(a, h, w) && IsGrid(b, h, w)
    requires forall y, x :: 0 <= y < h && 0 <= x < w ==> a[y][x] == b[y][x]
    ensures a == b
  {
    forall y | 0 <= y < h ensures a[y] == b[y] {
      assert |a[y]| == |b[y]| == w;
    }
  }

  // ---------------------------------------------------------------------------
  // What the extracted mask means
  // ---------------------------------------------------------------------------

  /** In segmentation mode a pixel is 255 exactly when some instance value there is strictly above 0.5, else 0. */
  lemma {:induction false} SegUnionSpec(ms: seq<SegMask>, h: nat, w: nat, y: nat, x: nat)
    requires Covers(ms, h, w) && y < h && x < w
    ensures SegUnion(ms, h, w, y, x) == if exists k :: 0 <= k < |ms| && ms[k][y][x] > 0.5 then 255 else 0
  {
    if |ms| > 0 {
      var p := ms[..|ms| - 1];
      SegUnionSpec(p, h, w, y, x);
      if exists k :: 0 <= k < |p| && p[k][y][x] > 0.5 {
        var k :| 0 <= k < |p| && p[k][y][x] > 0.5;
        assert ms[k] == p[k];
      }
      if exists k :: 0 <= k < |ms| && ms[k][y][x] > 0.5 {
        var k :| 0 <= k < |ms| && ms[k][y][x] > 0.5;
        if k < |p| { assert p[k] == ms[k]; }
      }
    }
  }

  /** The union does not depend on the order of the instances. */
  lemma SegUnionOrderInsensitive(ms: seq<SegMask>, ns: seq<SegMask>, h: nat, w: nat, y: nat, x: nat)
    requires Covers(ms, h, w) && y < h && x < w
    requires multiset(ms) == multiset(ns)
    ensures Covers(ns, h, w)
    ensures SegUnion(ms, h, w, y, x) == SegUnion(ns, h, w, y, x)
  {
    forall k | 0 <= k < |ns| ensures IsGrid(ns[k], h, w) {
      assert ns[k] in multiset(ms);
    }
    SegUnionSpec(ms, h, w, y, x);
    SegUnionSpec(ns, h, w, y, x);
    if exists k :: 0 <= k < |ms| && ms[k][y][x] > 0.5 {
      var k :| 0 <= k < |ms| && ms[k][y][x] > 0.5;
      assert ms[k] in multiset(ns);
      var j :| 0 <= j < |ns| && ns[j] == ms[k];
    }
    if exists k :: 0 <= k < |ns| && ns[k][y][x] > 0.5 {
      var k :| 0 <= k < |ns| && ns[k][y][x] > 0.5;
      assert ns[k] in multiset(ms);
      var j :| 0 <= j < |ms| && ms[j] == ns[k];
    }
  }

  /** In box mode a pixel is 255 exactly when some box contains it, else 0. */
  lemma {:induction false} BoxUnionSpec(bs: seq<Box>, y: nat, x: nat)
    ensures BoxUnion(bs, y, x) == if exists k :: 0 <= k < |bs| && InBox(bs[k], y, x) then 255 else 0
  {
    if |bs| > 0 {
      var p := bs[..|bs| - 1];
      BoxUnionSpec(p, y, x);
      if exists k :: 0 <= k < |p| && InBox(p[k], y, x) {
        var k :| 0 <= k < |p| && InBox(p[k], y, x);
        assert bs[k] == p[k];
      }
      if exists k :: 0 <= k < |bs| && InBox(bs[k], y, x) {
        var k :| 0 <= k < |bs| && InBox(bs[k], y, x);
        if k < |p| { assert p[k] == bs[k]; }
      }
    }
  }

  /** A box with `x2 <= x1` or `y2 <= y1`, wherever it stands in the list, changes nothing. */
  lemma EmptyBoxChangesNothing(before: seq<Box>, b: Box, after: seq<Box>, y: nat, x: nat)
    requires b.x2 <= b.x1 || b.y2 <= b.y1
    ensures BoxUnion(before + [b] + after, y, x) == BoxUnion(before + after, y, x)
  {
    var all, rest := before + [b] + after, before + after;
    BoxUnionSpec(all, y, x);
    BoxUnionSpec(rest, y, x);
    if exists k :: 0 <= k < |all| && InBox(all[k], y, x) {
      var k :| 0 <= k < |all| && InBox(all[k], y, x);
      if k < |before| { assert rest[k] == all[k]; } else { assert rest[k - 1] == all[k]; }
    }
    if exists k :: 0 <= k < |rest| && InBox(rest[k], y, x) {
      var k :| 0 <= k < |rest| && InBox(rest[k], y, x);
      if k < |before| { assert all[k] == rest[k]; } else { assert all[k + 1] == rest[k]; }
    }
  }

  /**
   * The extracted pixel, branch by branch: it is always 0 or 255; with
   * instance masks it is the strict-0.5 threshold union (boxes unread); with
   * boxes only it is the box union; with neither, or no result at all, it is 0.
   */
  lemma ExtractedPixelSpec(results: seq<Detection>, h: nat, w: nat, y: nat, x: nat)
    requires MasksAtResolution(results, h, w) && y < h && x < w
    ensures ExtractedPixel(results, h, w, y, x) == 0 || ExtractedPixel(results, h, w, y, x) == 255
    ensures |results| > 0 && results[0].masks.Some? && |results[0].masks.value| > 0 ==>
              var ms := results[0].masks.value;
              ExtractedPixel(results, h, w, y, x) == 255 <==> exists k :: 0 <= k < |ms| && ms[k][y][x] > 0.5
    ensures |results| > 0 && !(results[0].masks.Some? && |results[0].masks.value| > 0)
              && results[0].boxes.Some? ==>
              var bs := results[0].boxes.value;
              ExtractedPixel(results, h, w, y, x) == 255 <==> exists k :: 0 <= k < |bs| && InBox(bs[k], y, x)
    ensures ModeOf(results).EmptyMode? ==> ExtractedPixel(results, h, w, y, x) == 0
  {
    match ModeOf(results)
    case SegmentationMode(ms) => SegUnionSpec(ms, h, w, y, x);
    case BoxMode(bs) => BoxUnionSpec(bs, y, x);
    case EmptyMode =>
  }

  /** Boxes are consulted only when there is no instance mask: with masks present, replacing the boxes changes nothing. */
  lemma BoxesIgnoredWithMasks(results: seq<Detection>, others: Option<seq<Box>>, h: nat, w: nat)
    requires |results| > 0 && results[0].masks.Some? && |results[0].masks.value| > 0
    requires MasksAtResolution(results, h, w)
    ensures MasksAtResolution([results[0].(boxes := others)], h, w)
    ensures ExtractedGrid([results[0].(boxes := others)], h, w) == ExtractedGrid(results, h, w)
  {
    var alt := [results[0].(boxes := others)];
    assert ModeOf(alt) == ModeOf(results);
    SameGrid(ExtractedGrid(alt, h, w), ExtractedGrid(results, h, w), h, w);
  }

  /** With no result, or a result with neither masks nor boxes, the mask is all zero (not an error). */
  lemma NothingDetectedMeansEmptyMask(results: seq<Detection>, h: nat, w: nat)
    requires |results| == 0 || ((results[0].masks.None? || results[0].masks.value == [])
                                && (results[0].boxes.None? || results[0].boxes.value == []))
    ensures MasksAtResolution(results, h, w)
    ensures forall y, x :: 0 <= y < h && 0 <= x < w ==> ExtractedGrid(results, h, w)[y][x] == 0
  {
    assert ModeOf(results) == EmptyMode;
  }

  /** One box `(10,10)-(50,50)` on a 100 x 100 image: 255 exactly inside the rectangle, 0 elsewhere. */
  lemma SingleBoxScenario(y: nat, x: nat)
    requires y < 100 && x < 100
    ensures var results := [Detection(None, Some([Box(10, 10, 50, 50)]))];
            MasksAtResolution(results, 100, 100) &&
            ExtractedGrid(results, 100, 100)[y][x] == if 10 <= y < 50 && 10 <= x < 50 then 255 else 0
  {
    var results := [Detection(None, Some([Box(10, 10, 50, 50)]))];
    assert ModeOf(results) == BoxMode([Box(10, 10, 50, 50)]);
    BoxUnionSpec([Box(10, 10, 50, 50)], y, x);
  }
}
