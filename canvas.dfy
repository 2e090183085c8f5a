/**
 * Pixels, images, boxes and the two image-library operations the demo relies on:
 * resizing (whose pixel values are left abstract) and the horizontal mirror.
 */
module Canvas {

  /** One 8-bit channel value (numpy `uint8`). */
  newtype byte = x: int | 0 <= x < 256

  /** A three-channel pixel in OpenCV's blue, green, red order. */
  datatype Pixel = Pixel(blue: byte, green: byte, red: byte)

  /** The value `np.zeros((h, w, 3), np.uint8)` fills a canvas with. */
  const Black := Pixel(0, 0, 0)

  /** An image as a sequence of rows: `img[r][c]` is numpy's `img[r, c]`. */
  type Image = seq<seq<Pixel>>

  /** `g` has exactly `rows` rows, each of `cols` pixels. */
  predicate IsGrid(g: Image, rows: int, cols: int) {
    |g| == rows && forall r :: 0 <= r < |g| ==> |g[r]| == cols
  }

  /** A picture as loaded from disk or read from the webcam: rectangular and not empty. */
  predicate IsPicture(pic: Image) {
    |pic| >= 1 && |pic[0]| >= 1 && IsGrid(pic, |pic|, |pic[0]|)
  }

  /** `pic.shape[1]` and `pic.shape[0]` of a picture. */
  function Width(pic: Image): nat { if |pic| == 0 then 0 else |pic[0]| }
  function Height(pic: Image): nat { |pic| }

  /** A `rows` by `cols` image of one colour. */
  function Filled(rows: nat, cols: nat, p: Pixel): (g: Image)
    ensures IsGrid(g, rows, cols)
  {
    seq(rows, r => seq(cols, c => p))
  }

  /** The pixels of a canvas buffer, row by row. */
  function Grid(a: array2<Pixel>): Image
    reads a
  {
    seq(a.Length0, r reads a => RowOf(a, r))
  }

  /** Row `r` of a canvas buffer, or no pixels past its last row. */
  function RowOf(a: array2<Pixel>, r: int): seq<Pixel>
    reads a
  {
    if 0 <= r < a.Length0 then seq(a.Length1, c reads a => Cell(a, r, c)) else []
  }

  /** The pixel at row `r`, column `c` of a canvas buffer, or black outside it. */
  function Cell(a: array2<Pixel>, r: int, c: int): Pixel
    reads a
  {
    if 0 <= r < a.Length0 && 0 <= c < a.Length1 then a[r, c] else Black
  }

  /**
   * A rectangle `[[left, top], [right, bottom]]` in canvas pixel coordinates;
   * it covers columns `left .. right - 1` and rows `top .. bottom - 1`.
   */
  datatype Box = Box(left: int, top: int, right: int, bottom: int) {
    function Width(): int { right - left }
    function Height(): int { bottom - top }
    predicate Contains(row: int, col: int) {
      top <= row < bottom && left <= col < right
    }
  }

  /** The box lies within a canvas of `rows` by `cols` pixels. */
  predicate InCanvas(b: Box, rows: int, cols: int) {
    0 <= b.left <= b.right <= cols && 0 <= b.top <= b.bottom <= rows
  }

  /**
   * `cv2.resize(pic, (width, height))`: an image of exactly `height` rows of `width`
   * pixels. Which pixel values the interpolation produces is not modelled.
   */
  type Resizer = f: (Image, nat, nat) -> Image | forall pic: Image, width: nat, height: nat :: IsGrid(f(pic, width, height), height, width)
    witness (pic: Image, width: nat, height: nat) => Filled(height, width, Black)

  /** `cv2.flip(img, 1)`: mirror every row about the vertical axis. */
  function FlipHorizontal(img: Image): (r: Image)
    ensures IsPicture(img) ==> IsPicture(r) && Width(r) == Width(img) && Height(r) == Height(img)
  {
    seq(|img|, i => Mirrored(RowAt(img, i)))
  }

  /** Row `i` of `img`, or no pixels past its last row. */
  function RowAt(img: Image, i: int): seq<Pixel> {
    if 0 <= i < |img| then img[i] else []
  }

  /** A row read from right to left. */
  function Mirrored(row: seq<Pixel>): (r: seq<Pixel>)
    ensures |r| == |row| && forall j :: 0 <= j < |row| ==> r[j] == row[|row| - 1 - j]
  {
    seq(|row|, j => PixelAt(row, |row| - 1 - j))
  }

  /** Pixel `j` of `row`, or black outside it. */
  function PixelAt(row: seq<Pixel>, j: int): Pixel {
    if 0 <= j < |row| then row[j] else Black
  }
}
