/**
 * Pixel buffers as the pipeline sees them: 8-bit channels, row-major grids of
 * `height` rows of `width` pixels, and the errors the pipeline can raise.
 */
module Imaging {

  /** A numpy `uint8` value. */
  newtype byte = x: int | 0 <= x < 256

  /** A 3-channel pixel by channel position; what the positions mean (BGR or RGB) depends on the stage. */
  datatype Px3 = Px3(c0: byte, c1: byte, c2: byte)

  /** A 4-channel pixel: three colour channels and the alpha channel `c3`. */
  datatype Px4 = Px4(c0: byte, c1: byte, c2: byte, c3: byte)

  /** `g` is an `h x w` grid: `h` rows, each of length `w`. */
  predicate IsGrid<T>(g: seq<seq<T>>, h: nat, w: nat) {
    |g| == h && forall y :: 0 <= y < h ==> |g[y]| == w
  }

  /** A single-channel `uint8` buffer such as a mask. */
  type Grid = seq<seq<byte>>

  /** A mask is binary when every value is 0 or 255. */
  predicate IsBinary(m: Grid) {
    forall y, x :: 0 <= y < |m| && 0 <= x < |m[y]| ==> m[y][x] == 0 || m[y][x] == 255
  }

  datatype RawImage = Image(height: nat, width: nat, pixels: seq<seq<Px3>>)

  /** A decoded 3-channel image: numpy arrays are never ragged. */
  type Image = i: RawImage | IsGrid(i.pixels, i.height, i.width) witness Image(0, 0, [])

  /** A 4-channel image as handed to the PNG encoder. */
  datatype Rgba = Rgba(height: nat, width: nat, pixels: seq<seq<Px4>>)

  /** The exceptions of the modelled code, one constructor per kind. */
  datatype Failure =
    | InputNotFound                  // FileNotFoundError for a missing input
    | UnreadableImage                // ValueError: the decoder returned nothing
    | ModelUnavailable(weights: string) // the last candidate model failed to load
    | DimensionMismatch              // np.dstack on arrays of different height or width
    | EmptyName                      // ValueError from Path.with_suffix on a path with an empty name
    | InvalidSuffix                  // ValueError from Path.with_suffix on a malformed suffix
    | NameNotDefined(name: string)   // NameError: a module that was never imported
    | NonPositiveSize                // ValueError from Image.resize: a target side below 1
}
