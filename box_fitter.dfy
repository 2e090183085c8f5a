/**
 * `put_pic_center`: scale a picture uniformly so that it fits a box, centre it in the
 * box and copy it into the canvas in place.
 */
module BoxFitter {
  import opened Opt
  import opened Canvas

  /**
   * `n` is `x` rounded to the nearest integer, ties to the even neighbour: how
   * OpenCV turns `pic_dim * ratio` into an output dimension of `cv2.resize`.
   */
  predicate RoundsTo(x: real, n: int) {
    && x - 0.5 <= n as real <= x + 0.5
    && ((n as real == x - 0.5 || n as real == x + 0.5) ==> n % 2 == 0)
  }

  /** Rounding to the nearest, ties to even, in terms of `Floor`. */
  function RoundHalfEven(x: real): (n: int)
    ensures RoundsTo(x, n)
  {
    var f := x.Floor;
    var d := x - f as real;
    if d < 0.5 then f
    else if d > 0.5 then f + 1
    else if f % 2 == 0 then f
    else f + 1
  }

  /** There is only one rounding of a number, so `RoundsTo` pins `n` down. */
  lemma RoundsToUnique(x: real, m: int, n: int)
    requires RoundsTo(x, m) && RoundsTo(x, n)
    ensures m == n
  {
  }

  /** Any rounding of `x` is the one `RoundHalfEven` computes. */
  lemma RoundsToHalfEven(x: real, n: int)
    requires RoundsTo(x, n)
    ensures n == RoundHalfEven(x)
  {
    RoundsToUnique(x, n, RoundHalfEven(x));
  }

  /** The scale factor: the larger of the two axis ratios that still fits on both axes. */
  function Ratio(boxW: int, boxH: int, picW: int, picH: int): (ratio: real)
    requires picW >= 1 && picH >= 1
    ensures ratio <= boxW as real / picW as real && ratio <= boxH as real / picH as real
    ensures ratio == boxW as real / picW as real || ratio == boxH as real / picH as real
  {
    var rx := boxW as real / picW as real;
    var ry := boxH as real / picH as real;
    if ry < rx then ry else rx
  }

  /** The centring margin on one axis (`//` on non-negative operands is Dafny's `/`). */
  function Margin(boxDim: int, resizedDim: int): (m: int)
    ensures m >= 0
    ensures resizedDim >= boxDim ==> m == 0
    ensures resizedDim <= boxDim ==> m + resizedDim <= boxDim
    ensures resizedDim <= boxDim ==> m <= boxDim - resizedDim - m <= m + 1
  {
    if resizedDim < boxDim then (boxDim - resizedDim) / 2 else 0
  }

  /** Size of the resized picture and its margins inside the box. */
  datatype Fit = Fit(width: int, height: int, marginLeft: int, marginTop: int)

  /** `cv2.resize` raises unless both output dimensions are positive. */
  predicate Resizable(f: Fit) {
    f.width >= 1 && f.height >= 1
  }

  /**
   * `RoundHalfEven(n / d)` in integer arithmetic: the quotient rounded to the nearest
   * integer, ties to the even neighbour.
   */
  function RoundDiv(n: int, d: int): int
    requires d >= 1
  {
    var q := n / d;
    var r := n % d;
    if 2 * r < d then q
    else if 2 * r > d then q + 1
    else if q % 2 == 0 then q
    else q + 1
  }

  /** `RoundDiv` is the rounding `cv2.resize` applies to the exact quotient. */
  lemma RoundDivRounds(n: int, d: int)
    requires d >= 1
    ensures RoundsTo(n as real / d as real, RoundDiv(n, d))
  {
    SplitQuotient(n, d);
    HalfCompare(n % d, d);
  }

  /** The exact quotient is the integer quotient plus a fraction in [0, 1). */
  lemma SplitQuotient(n: int, d: int)
    requires d >= 1
    ensures var y := (n % d) as real / d as real;
      n as real / d as real == (n / d) as real + y && 0.0 <= y < 1.0
  {
    var q := n / d;
    var r := n % d;
    var dr := d as real;
    assert n as real == q as real * dr + r as real;
    assert (q as real * dr) / dr == q as real;
    assert (q as real * dr + r as real) / dr == (q as real * dr) / dr + r as real / dr;
  }

  /** Comparing the fraction `r / d` with one half, in integers. */
  lemma HalfCompare(r: int, d: int)
    requires d >= 1
    ensures 2 * r < d <==> r as real / d as real < 0.5
    ensures 2 * r > d <==> r as real / d as real > 0.5
  {
    var y := r as real / d as real;
    var dr := d as real;
    assert y * dr == r as real;
    assert (y - 0.5) * dr == r as real - 0.5 * dr;
    SignOfProduct(y - 0.5, dr);
  }

  /** Multiplying by a positive number keeps the sign. */
  lemma SignOfProduct(a: real, c: real)
    requires c > 0.0
    ensures a < 0.0 <==> a * c < 0.0
    ensures a > 0.0 <==> a * c > 0.0
  {
  }

  /** A quotient rounds to at most `m` when it is at most `m`. */
  lemma RoundDivAtMost(n: int, d: int, m: int)
    requires d >= 1 && n <= m * d
    ensures RoundDiv(n, d) <= m
  {
    var q := n / d;
    assert q * d <= n;
    assert q <= m;
    if q == m {
      assert n % d == n - m * d;
    }
  }

  /** An exact multiple rounds to its quotient. */
  lemma RoundDivExact(m: int, d: int)
    requires d >= 1
    ensures RoundDiv(m * d, d) == m
  {
    DivExact(m * d, d, m);
  }

  /** Dividing an exact multiple `q * d` by `d` leaves `q` and no remainder. */
  lemma DivExact(n: int, d: int, q: int)
    requires d >= 1 && n == q * d
    ensures n / d == q && n % d == 0
  {
    var k := n / d - q;
    assert k * d + n % d == 0 by {
      assert n == (n / d) * d + n % d;
      assert (n / d) * d == q * d + k * d;
    }
    MulBounds(k, d);
  }

  /** Multiplying by `d >= 1` keeps a nonzero integer at least `d` away from zero. */
  lemma MulBounds(k: int, d: int)
    requires d >= 1
    ensures k >= 1 ==> k * d >= d
    ensures k <= -1 ==> k * d <= -d
  {
    if k >= 1 {
      assert k * d == (k - 1) * d + d;
    } else if k <= -1 {
      assert k * d == (k + 1) * d - d;
    }
  }

  /**
   * How a `picW` by `picH` picture is fitted into a `boxW` by `boxH` box: both axes
   * are scaled by the same ratio (up to rounding), the result never exceeds the box,
   * it fills the box on at least one axis, and it is centred to within one pixel.
   * The axis whose ratio is the smaller is scaled to exactly the box, the other is
   * `pic * box / pic'` rounded, which `PlanFitRoundsRatio` shows is `cv2.resize`'s
   * rounding of `pic * ratio`.
   */
  function PlanFit(picW: int, picH: int, boxW: int, boxH: int): (f: Fit)
    requires picW >= 1 && picH >= 1
    ensures f.width <= boxW && f.height <= boxH
    ensures f.width == boxW || f.height == boxH
    ensures 0 <= f.marginLeft && f.marginLeft + f.width <= boxW
    ensures 0 <= f.marginTop && f.marginTop + f.height <= boxH
    ensures f.marginLeft <= boxW - f.width - f.marginLeft <= f.marginLeft + 1
    ensures f.marginTop <= boxH - f.height - f.marginTop <= f.marginTop + 1
  {
    if boxH * picW < boxW * picH then
      RoundDivAtMost(picW * boxH, picH, boxW);
      var width := RoundDiv(picW * boxH, picH);
      Fit(width, boxH, Margin(boxW, width), Margin(boxH, boxH))
    else
      RoundDivAtMost(picH * boxW, picW, boxH);
      var height := RoundDiv(picH * boxW, picW);
      Fit(boxW, height, Margin(boxW, boxW), Margin(boxH, height))
  }

  /** The ratio of the box's height wins exactly when it is the smaller of the two. */
  lemma RatioChoice(picW: int, picH: int, boxW: int, boxH: int)
    requires picW >= 1 && picH >= 1
    ensures boxH as real / picH as real < boxW as real / picW as real <==> boxH * picW < boxW * picH
  {
    var rx := boxW as real / picW as real;
    var ry := boxH as real / picH as real;
    var p := (picW * picH) as real;
    assert p > 0.0;
    assert rx * p == (boxW * picH) as real;
    assert ry * p == (boxH * picW) as real;
  }

  /**
   * Both output dimensions are `cv2.resize`'s rounding of the picture's dimension
   * times `min(box_width / pic_width, box_height / pic_height)`, in exact arithmetic.
   */
  lemma PlanFitRoundsRatio(picW: int, picH: int, boxW: int, boxH: int)
    requires picW >= 1 && picH >= 1
    ensures var f := PlanFit(picW, picH, boxW, boxH); var ratio := Ratio(boxW, boxH, picW, picH);
      RoundsTo(picW as real * ratio, f.width) && RoundsTo(picH as real * ratio, f.height)
  {
    if boxH * picW < boxW * picH {
      HeightFilledWidthScaled(picW, picH, boxW, boxH);
      HeightFilledHeightExact(picW, picH, boxW, boxH);
    } else {
      WidthFilledHeightScaled(picW, picH, boxW, boxH);
      WidthFilledWidthExact(picW, picH, boxW, boxH);
    }
  }

  /** When the box's height ratio is the smaller, the width is the scaled one... */
  lemma HeightFilledWidthScaled(picW: int, picH: int, boxW: int, boxH: int)
    requires picW >= 1 && picH >= 1 && boxH * picW < boxW * picH
    ensures RoundsTo(picW as real * Ratio(boxW, boxH, picW, picH), PlanFit(picW, picH, boxW, boxH).width)
  {
    RatioChoice(picW, picH, boxW, boxH);
    ScaledRounds(picW, picH, boxH, Ratio(boxW, boxH, picW, picH));
  }

  /** ... and the height fills the box. */
  lemma HeightFilledHeightExact(picW: int, picH: int, boxW: int, boxH: int)
    requires picW >= 1 && picH >= 1 && boxH * picW < boxW * picH
    ensures RoundsTo(picH as real * Ratio(boxW, boxH, picW, picH), PlanFit(picW, picH, boxW, boxH).height)
  {
    RatioChoice(picW, picH, boxW, boxH);
    ScaledRounds(picW, picH, boxH, Ratio(boxW, boxH, picW, picH));
  }

  /** Otherwise the height is the scaled one... */
  lemma WidthFilledHeightScaled(picW: int, picH: int, boxW: int, boxH: int)
    requires picW >= 1 && picH >= 1 && !(boxH * picW < boxW * picH)
    ensures RoundsTo(picH as real * Ratio(boxW, boxH, picW, picH), PlanFit(picW, picH, boxW, boxH).height)
  {
    RatioChoice(picW, picH, boxW, boxH);
    ScaledRounds(picH, picW, boxW, Ratio(boxW, boxH, picW, picH));
  }

  /** ... and the width fills the box. */
  lemma WidthFilledWidthExact(picW: int, picH: int, boxW: int, boxH: int)
    requires picW >= 1 && picH >= 1 && !(boxH * picW < boxW * picH)
    ensures RoundsTo(picW as real * Ratio(boxW, boxH, picW, picH), PlanFit(picW, picH, boxW, boxH).width)
  {
    RatioChoice(picW, picH, boxW, boxH);
    ScaledRounds(picH, picW, boxW, Ratio(boxW, boxH, picW, picH));
  }

  /**
   * Scaling by `ratio == box / pic'` rounds `pic` to `RoundDiv(pic * box, pic')`
   * and `pic'` to `box` itself.
   */
  lemma ScaledRounds(pic: int, pic': int, box: int, ratio: real)
    requires pic >= 1 && pic' >= 1 && ratio == box as real / pic' as real
    ensures RoundsTo(pic as real * ratio, RoundDiv(pic * box, pic'))
    ensures RoundsTo(pic' as real * ratio, box)
  {
    ScaledBy(pic, box, pic');
    assert pic as real * ratio == (pic * box) as real / pic' as real;
    assert pic' as real * ratio == box as real;
    RoundDivRounds(pic * box, pic');
  }

  /** `a` scaled by `b / c`, and `c` scaled by it. */
  lemma ScaledBy(a: int, b: int, c: int)
    requires c >= 1
    ensures a as real * (b as real / c as real) == (a * b) as real / c as real
    ensures c as real * (b as real / c as real) == b as real
  {
  }

  /** Hence the width `PlanFit` computes is the one OpenCV's `cvRound` gives... */
  lemma PlanFitWidthIsCvRound(picW: int, picH: int, boxW: int, boxH: int)
    requires picW >= 1 && picH >= 1
    ensures PlanFit(picW, picH, boxW, boxH).width == RoundHalfEven(picW as real * Ratio(boxW, boxH, picW, picH))
  {
    PlanFitRoundsRatio(picW, picH, boxW, boxH);
    RoundsToHalfEven(picW as real * Ratio(boxW, boxH, picW, picH), PlanFit(picW, picH, boxW, boxH).width);
  }

  /** ... and so is the height. */
  lemma PlanFitHeightIsCvRound(picW: int, picH: int, boxW: int, boxH: int)
    requires picW >= 1 && picH >= 1
    ensures PlanFit(picW, picH, boxW, boxH).height == RoundHalfEven(picH as real * Ratio(boxW, boxH, picW, picH))
  {
    PlanFitRoundsRatio(picW, picH, boxW, boxH);
    RoundsToHalfEven(picH as real * Ratio(boxW, boxH, picW, picH), PlanFit(picW, picH, boxW, boxH).height);
  }

  /** When picture and box have the same aspect ratio the picture fills the box exactly. */
  lemma ExactFill(picW: int, picH: int, boxW: int, boxH: int)
    requires picW >= 1 && picH >= 1
    requires picW * boxH == picH * boxW
    ensures PlanFit(picW, picH, boxW, boxH) == Fit(boxW, boxH, 0, 0)
  {
    assert picH * boxW == boxH * picW;
    RoundDivExact(boxH, picW);
  }

  /** A 100 by 50 picture in a 200 by 200 box is doubled and placed 50 rows down. */
  lemma WideIntoSquare()
    ensures PlanFit(100, 50, 200, 200) == Fit(200, 100, 0, 50)
  {
  }

  /** A 100 by 100 picture in a 50 by 50 box is halved and fills it. */
  lemma SquareIntoSmallerSquare(pic: Image)
    requires IsPicture(pic) && Width(pic) == 100 && Height(pic) == 100
    ensures Target(pic, Box(10, 10, 60, 60)) == Box(10, 10, 60, 60)
  {
    ExactFill(100, 100, 50, 50);
  }

  /** The fit of a picture in a box. */
  function FitIn(pic: Image, box: Box): Fit
    requires IsPicture(pic)
  {
    PlanFit(Width(pic), Height(pic), box.Width(), box.Height())
  }

  /** The canvas rectangle the resized picture is written to. */
  function Target(pic: Image, box: Box): (t: Box)
    requires IsPicture(pic)
    ensures t.Width() == FitIn(pic, box).width && t.Height() == FitIn(pic, box).height
    ensures box.left <= t.left && t.right <= box.right
    ensures box.top <= t.top && t.bottom <= box.bottom
    ensures t.left - box.left <= box.right - t.right <= t.left - box.left + 1
    ensures t.top - box.top <= box.bottom - t.bottom <= t.top - box.top + 1
  {
    var f := FitIn(pic, box);
    Box(box.left + f.marginLeft, box.top + f.marginTop,
        box.left + f.marginLeft + f.width, box.top + f.marginTop + f.height)
  }

  /** The resized picture itself. */
  function Resized(pic: Image, box: Box, resize: Resizer): (r: Image)
    requires IsPicture(pic) && Resizable(FitIn(pic, box))
    ensures IsGrid(r, FitIn(pic, box).height, FitIn(pic, box).width)
  {
    resize(pic, FitIn(pic, box).width, FitIn(pic, box).height)
  }

  /** The box lies inside every row of `g`. */
  predicate FitsGrid(box: Box, g: Image) {
    && 0 <= box.top <= box.bottom <= |g|
    && 0 <= box.left <= box.right
    && forall r :: 0 <= r < |g| ==> box.right <= |g[r]|
  }

  /**
   * The image `put_pic_center` leaves behind, or `None` when `cv2.resize` raises.
   * It has the shape of `g`; the lemmas below say which pixels change when the box
   * lies inside `g`, the only case the demo produces (pixels of the target rectangle
   * that fall outside `g` are dropped).
   */
  function Paste(g: Image, pic: Image, box: Box, resize: Resizer): (r: Option<Image>)
    requires IsPicture(pic)
    ensures r.None? <==> !Resizable(FitIn(pic, box))
    ensures r.Some? ==> |r.value| == |g| && forall row :: 0 <= row < |g| ==> |r.value[row]| == |g[row]|
  {
    if !Resizable(FitIn(pic, box)) then None
    else
      var t := Target(pic, box);
      var resized := Resized(pic, box, resize);
      Some(seq(|g|, row => seq(RowLength(g, row), col => PastedPixel(g, t, resized, row, col))))
  }

  /** The number of pixels in row `row` of `g`, or 0 past its last row. */
  function RowLength(g: Image, row: int): nat {
    if 0 <= row < |g| then |g[row]| else 0
  }

  /** The pixel at (`row`, `col`) once `resized` is written to rectangle `t` of `g`. */
  function PastedPixel(g: Image, t: Box, resized: Image, row: int, col: int): Pixel {
    if t.Contains(row, col) && row - t.top < |resized| && col - t.left < RowLength(resized, row - t.top) then
      resized[row - t.top][col - t.left]
    else if 0 <= row < |g| && 0 <= col < |g[row]| then g[row][col]
    else Black
  }

  /** The target rectangle shows the resized picture, pixel for pixel. */
  lemma PasteShowsPicture(g: Image, pic: Image, box: Box, resize: Resizer, i: int, j: int)
    requires IsPicture(pic) && FitsGrid(box, g) && Paste(g, pic, box, resize).Some?
    requires 0 <= i < FitIn(pic, box).height && 0 <= j < FitIn(pic, box).width
    ensures var t := Target(pic, box);
      && 0 <= t.top + i < |g| && 0 <= t.left + j < |g[t.top + i]|
      && Paste(g, pic, box, resize).value[t.top + i][t.left + j] == Resized(pic, box, resize)[i][j]
  {
    var t := Target(pic, box);
    var resized := Resized(pic, box, resize);
    assert Paste(g, pic, box, resize).value[t.top + i][t.left + j]
        == PastedPixel(g, t, resized, t.top + i, t.left + j);
  }

  /** Every pixel outside the target rectangle keeps its value. */
  lemma PasteKeepsOutsideTarget(g: Image, pic: Image, box: Box, resize: Resizer, row: int, col: int)
    requires IsPicture(pic) && FitsGrid(box, g) && Paste(g, pic, box, resize).Some?
    requires 0 <= row < |g| && 0 <= col < |g[row]| && !Target(pic, box).Contains(row, col)
    ensures Paste(g, pic, box, resize).value[row][col] == g[row][col]
  {
    var t := Target(pic, box);
    var resized := Resized(pic, box, resize);
    assert Paste(g, pic, box, resize).value[row][col] == PastedPixel(g, t, resized, row, col);
  }

  /** In particular, every pixel outside the box keeps its value. */
  lemma PasteKeepsOutsideBox(g: Image, pic: Image, box: Box, resize: Resizer, row: int, col: int)
    requires IsPicture(pic) && FitsGrid(box, g) && Paste(g, pic, box, resize).Some?
    requires 0 <= row < |g| && 0 <= col < |g[row]| && !box.Contains(row, col)
    ensures Paste(g, pic, box, resize).value[row][col] == g[row][col]
  {
    PasteKeepsOutsideTarget(g, pic, box, resize, row, col);
  }

  /**
   * `put_pic_center(frame, pic, box)`. Raises (returns `None`, canvas untouched) when
   * the resized picture would be empty; otherwise writes it centred into the box and
   * returns the same canvas.
   */
  method PutPicCenter(frame: array2<Pixel>, pic: Image, box: Box, resize: Resizer)
    returns (result: Option<array2<Pixel>>)
    requires IsPicture(pic) && InCanvas(box, frame.Length0, frame.Length1)
    modifies frame
    ensures result.None? <==> !Resizable(FitIn(pic, box))
    ensures result.None? ==> unchanged(frame)
    ensures result.Some? ==> result.value == frame
    ensures Paste(old(Grid(frame)), pic, box, resize) == if result.Some? then Some(Grid(frame)) else None
  {
    ghost var before := Grid(frame);
    var fit := FitIn(pic, box);
    if !Resizable(fit) {
      return None;
    }
    var resized := resize(pic, fit.width, fit.height);
    CopyInto(frame, resized, box.top + fit.marginTop, box.left + fit.marginLeft);
    result := Some(frame);
    GridIsPaste(frame, before, pic, box, resize);
  }

  /** A canvas holding `before` with the resized picture copied to its target is the `Paste`. */
  lemma GridIsPaste(frame: array2<Pixel>, before: Image, pic: Image, box: Box, resize: Resizer)
    requires IsPicture(pic) && InCanvas(box, frame.Length0, frame.Length1) && Resizable(FitIn(pic, box))
    requires IsGrid(before, frame.Length0, frame.Length1)
    requires var t := Target(pic, box); var resized := Resized(pic, box, resize);
      forall r, c :: 0 <= r < frame.Length0 && 0 <= c < frame.Length1 ==>
        frame[r, c] == if t.Contains(r, c) then resized[r - t.top][c - t.left] else before[r][c]
    ensures Paste(before, pic, box, resize) == Some(Grid(frame))
  {
    var t := Target(pic, box);
    var resized := Resized(pic, box, resize);
    var after := Grid(frame);
    forall r, c | 0 <= r < |before| && 0 <= c < |before[r]|
      ensures after[r][c] == if t.Contains(r, c) then resized[r - t.top][c - t.left] else before[r][c]
    {
      assert after[r][c] == frame[r, c];
    }
    PasteIsCopy(before, after, pic, box, resize);
  }

  /**
   * The slice assignment `frame[top:top+h, left:left+w] = pic`: the rectangle at
   * (`top`, `left`) takes the picture's pixels and nothing else changes.
   */
  method CopyInto(frame: array2<Pixel>, pic: Image, top: int, left: int)
    requires |pic| >= 1 && IsGrid(pic, |pic|, |pic[0]|)
    requires 0 <= top && top + |pic| <= frame.Length0
    requires 0 <= left && left + |pic[0]| <= frame.Length1
    modifies frame
    ensures forall r, c :: 0 <= r < frame.Length0 && 0 <= c < frame.Length1 ==>
      frame[r, c] == if top <= r < top + |pic| && left <= c < left + |pic[0]|
                     then pic[r - top][c - left] else old(frame[r, c])
  {
    var width := |pic[0]|;
    for i := 0 to |pic|
      invariant forall r, c :: 0 <= r < frame.Length0 && 0 <= c < frame.Length1 ==>
        frame[r, c] == if top <= r < top + i && left <= c < left + width
                       then pic[r - top][c - left] else old(frame[r, c])
    {
      for j := 0 to width
        invariant forall r, c :: 0 <= r < frame.Length0 && 0 <= c < frame.Length1 ==>
          frame[r, c] == if (top <= r < top + i && left <= c < left + width)
                            || (r == top + i && left <= c < left + j)
                         then pic[r - top][c - left] else old(frame[r, c])
      {
        frame[top + i, left + j] := pic[i][j];
      }
    }
  }

  /** A canvas that differs from `before` exactly by the copied picture is what `Paste` gives. */
  lemma PasteIsCopy(before: Image, after: Image, pic: Image, box: Box, resize: Resizer)
    requires IsPicture(pic) && FitsGrid(box, before) && Resizable(FitIn(pic, box))
    requires |after| == |before| && forall r :: 0 <= r < |before| ==> |after[r]| == |before[r]|
    requires var t := Target(pic, box); var resized := Resized(pic, box, resize);
      forall r, c :: 0 <= r < |before| && 0 <= c < |before[r]| ==>
        after[r][c] == if t.Contains(r, c) then resized[r - t.top][c - t.left] else before[r][c]
    ensures Paste(before, pic, box, resize) == Some(after)
  {
    var t := Target(pic, box);
    var resized := Resized(pic, box, resize);
    var p := Paste(before, pic, box, resize).value;
    forall r | 0 <= r < |before|
      ensures after[r] == p[r]
    {
      forall c | 0 <= c < |before[r]|
        ensures after[r][c] == p[r][c]
      {
        assert p[r][c] == PastedPixel(before, t, resized, r, c);
      }
    }
    assert after == p;
  }
}
