# GazeTracking conference demo, modelled in Dafny

The demo (`demo.py`) shows a mock video conference on a full-screen canvas:

- the user's own view holds Alice, Bob and the mirrored webcam image;
- Alice's and Bob's windows each hold Alice, Bob and the user as that person sees them.

The gaze tracker gives a point on the screen. A point in the left column picks Alice (upper part) or Bob (lower part) as the focused person. The focused person's box and the user's box in that person's window are highlighted, and the user's "looking into the camera" avatar is shown there. The conference starts on the first frame with a full gaze point, and from then on every frame is composited.

The model has six modules:

- `Opt`: the option type.
- `Canvas`: pixels, images as rows of pixels, `[[left, top], [right, bottom]]` boxes, and the canvas buffer as an `array2`. It also holds `cv2.resize`, whose output has the requested shape but whose pixel values are left abstract, and `cv2.flip(img, 1)`.
- `BoxFitter`: `put_pic_center`. This covers the scale factor `min(box_w / pic_w, box_h / pic_h)` and OpenCV's rounding of the output size. With that rounding, the size computed in integers is shown to equal round-half-to-even of the exact products. It also covers the centring margins and the in-place slice copy into the canvas. The copy is proved against the pure specification `Paste`.
- `Focus`: the Alice/Bob/none classification of the gaze point and the one-way `start_conference` flag.
- `Layout`: the nine fixed box expressions, one per placement, seven of which do not depend on the focus; the highlight rectangles; the three captions. It also proves facts about the geometry: the boxes lie inside the canvas, neighbours share edges, no two boxes overlap, and the highlights follow the focus.
- `Conference`: one composited frame. `Composite` is the specification, and `Render` builds it in a fresh black buffer. The loop state is the class `Session`, whose `Step` is one pass of the main loop.

Python's `//` with a positive divisor is Dafny's `/`. The float comparisons of the classifier are stated exactly, in integers. The float ratio of `put_pic_center` is an exact rational.

## Model

| member | source | states |
|---|---|---|
| `Canvas.Filled` | demo.py:103 | `np.zeros((h, w, 3))`: the canvas has exactly `h` rows of `w` pixels |
| `Canvas.FlipHorizontal` | demo.py:104 | mirroring a picture keeps it a non-empty rectangle of the same width and height |
| `BoxFitter.RoundHalfEven` | demo.py:40 | OpenCV's `cvRound` of `x` is within one half of `x`, and a tie goes to the even neighbour |
| `BoxFitter.RoundsToUnique` | demo.py:40 | two integers that both round `x` that way are equal, so the rounding relation determines the size |
| `BoxFitter.RoundsToHalfEven` | demo.py:40 | every integer that rounds `x` is the one `RoundHalfEven` computes |
| `BoxFitter.Ratio` | demo.py:38 | the scale factor is no larger than either axis ratio and equals one of them, so it is their minimum |
| `BoxFitter.Margin` | demo.py:44-49 | the margin is 0 unless the resized side is shorter than the box; then the picture fits, and the space left on the far side equals the margin or exceeds it by one |
| `BoxFitter.RoundDiv` | demo.py:40-42 | definition: the integer quotient rounded half to even, the output size on the scaled axis; its meaning is stated by `RoundDivRounds` |
| `BoxFitter.RoundDivRounds` | demo.py:40 | the integer quotient rounding used for the output size rounds the exact quotient half to even |
| `BoxFitter.RoundDivAtMost` | demo.py:40 | a quotient of at most `m` rounds to at most `m`, so the scaled side never overflows the box |
| `BoxFitter.RoundDivExact` | demo.py:40 | an exact multiple rounds to its quotient |
| `BoxFitter.PlanFit` | demo.py:31-49 | the resized picture is no larger than the box and fills it on at least one axis; the margins are non-negative, keep the picture inside the box, and centre it to within one pixel |
| `BoxFitter.PlanFitRoundsRatio` | demo.py:38-42 | both sizes `PlanFit` computes are the rounding of the picture's side times the minimum ratio |
| `BoxFitter.PlanFitWidthIsCvRound` | demo.py:38-41 | the resized width is exactly `cvRound(pic_width * ratio)` |
| `BoxFitter.PlanFitHeightIsCvRound` | demo.py:38-42 | the resized height is exactly `cvRound(pic_height * ratio)` |
| `BoxFitter.RatioChoice` | demo.py:38 | the height ratio is the smaller one exactly when `box_h * pic_w < box_w * pic_h` |
| `BoxFitter.ExactFill` | demo.py:38-49 | a picture with the box's aspect ratio fills the box exactly, with zero margins |
| `BoxFitter.WideIntoSquare` | demo.py:31-49 | a 100 by 50 picture in a 200 by 200 box becomes 200 by 100, placed 50 rows down |
| `BoxFitter.SquareIntoSmallerSquare` | demo.py:31-50 | a 100 by 100 picture put in the 50 by 50 box at (10, 10) covers that box exactly |
| `BoxFitter.FitIn` | demo.py:32-36 | definition: the picture's width and height and the box's width and height handed to `PlanFit` |
| `BoxFitter.Target` | demo.py:44-50 | the written rectangle has the resized size, lies inside the box, and is centred to within one pixel on each axis |
| `BoxFitter.Resized` | demo.py:40 | `cv2.resize` returns exactly the planned number of rows and columns |
| `BoxFitter.Paste` | demo.py:31-51 | `put_pic_center` raises exactly when a resized side would be empty; otherwise the canvas keeps its shape |
| `BoxFitter.PasteShowsPicture` | demo.py:50 | every pixel of the target rectangle shows the corresponding pixel of the resized picture |
| `BoxFitter.PasteKeepsOutsideTarget` | demo.py:50 | every pixel outside the target rectangle keeps its value |
| `BoxFitter.PasteKeepsOutsideBox` | demo.py:50 | in particular, nothing outside the box changes |
| `BoxFitter.PutPicCenter` | demo.py:31-51 | the in-place call raises exactly when `Paste` does, leaving the canvas untouched; otherwise it returns the same canvas object, now holding `Paste` of the old contents |
| `BoxFitter.CopyInto` | demo.py:50 | the slice assignment writes the picture into the rectangle at (top, left) and changes no other pixel |
| `Focus.Classify` | demo.py:88-100 | without both coordinates there is no focus; Alice iff `x < w*3/10` and `y < h*5/9`; Bob iff `x < w*3/10` and `y >= h*5/9` |
| `Focus.ClassifyExamples` | demo.py:96-100 | concrete gaze points on a 1000 by 900 screen fall to Alice, to Bob, and to nobody |
| `Focus.NextStarted` | demo.py:93-95 | definition: one pass sets the flag when it reads a frame with both gaze coordinates and otherwise leaves it as it was |
| `Focus.StartedAfter` | demo.py:63 | definition: the flag after a run of passes, starting unset; its meaning is stated by `StartedIffSeen` |
| `Focus.StartedIffSeen` | demo.py:93-95 | the flag, false at start-up (line 63), is set exactly when some pass so far read a frame with both gaze coordinates |
| `Focus.StartedStays` | demo.py:93-95 | once set, the flag stays set whatever later passes see |
| `Layout.MyAliceBox` | demo.py:107 | definition: Alice's box in the user's view |
| `Layout.MyBobBox` | demo.py:110 | definition: Bob's box in the user's view |
| `Layout.MyBox` | demo.py:113 | definition: the user's mirrored webcam box in the user's view |
| `Layout.AliceAliceBox` | demo.py:116 | definition: Alice's box in Alice's window |
| `Layout.AliceBobBox` | demo.py:119 | definition: Bob's box in Alice's window |
| `Layout.BobAliceBox` | demo.py:122 | definition: Alice's box in Bob's window |
| `Layout.BobBobBox` | demo.py:125 | definition: Bob's box in Bob's window |
| `Layout.AliceMeBox` | demo.py:128 | definition: the user's box in Alice's window |
| `Layout.BobMeBox` | demo.py:129 | definition: the user's box in Bob's window |
| `Layout.Scene` | demo.py:104-146 | definition: the nine (picture, box) placements in call order, with the self views chosen by the focus; its properties are stated by the lemmas below |
| `Layout.Highlights` | demo.py:130-143 | definition: the two highlighted boxes for a focused person, none otherwise; stated by `HighlightFollowsFocus` |
| `Layout.Labels` | demo.py:149-151 | definition: the three captions "Me", "Alice" and "Bob" at their anchor points |
| `Layout.SceneInCanvas` | demo.py:107-129 | each of the nine boxes lies inside the `w` by `h` canvas |
| `Layout.HighlightsInCanvas` | demo.py:130-143 | the highlight rectangles lie inside the canvas |
| `Layout.SharedEdges` | demo.py:107-129 | neighbouring boxes share their edges exactly (for example, Alice's and Bob's boxes in the user's view meet at `h*5//9`) |
| `Layout.SceneDisjoint` | demo.py:107-146 | no two of the nine boxes overlap |
| `Layout.SceneBoxesNonEmpty` | demo.py:107-129 | on a screen of at least 10 by 10 pixels every box is at least one pixel wide and high |
| `Layout.HighlightFollowsFocus` | demo.py:130-146 | a box is highlighted iff it is the focused person's box or the user's box in that person's window; there are no highlights without a focus; the user's camera-facing avatar appears exactly in the highlighted self view |
| `Layout.OnlySelfViewsDependOnFocus` | demo.py:107-146 | the first seven placements are the same whatever the focus; only the two self views change |
| `Conference.PasteAll` | demo.py:107-146 | running the placements in order keeps the canvas's shape |
| `Conference.PasteAllRaises` | demo.py:107-146 | the frame raises exactly when one of its pictures resizes to nothing |
| `Conference.PasteAllKeeps` | demo.py:107-146 | a pixel outside every box keeps the value it had on the blank canvas |
| `Conference.PasteAllShows` | demo.py:107-146 | a placement whose box no later box overlaps shows its resized picture, pixel for pixel |
| `Conference.Composite` | demo.py:103-146 | the frame composited from a black `h` by `w` canvas, when no call raises, is again an `h` by `w` canvas |
| `Conference.FrameFacts` | demo.py:107-146 | the nine placements of a frame are pictures in the scene's boxes; they fit the canvas and do not overlap |
| `Conference.CompositeShows` | demo.py:107-146 | in a composited frame, the target rectangle of each of the nine placements shows its resized picture |
| `Conference.CompositeBlackElsewhere` | demo.py:103-146 | every pixel outside the nine boxes stays black |
| `Conference.Place` | demo.py:108 | one `put_pic_center` call of the frame succeeds exactly when the picture resizes to a non-empty size; then the buffer holds `Paste` of its old contents and the rest of the composition runs on it, otherwise the buffer is untouched and the frame raises |
| `Conference.Compose` | demo.py:107-146 | after the calls, the buffer holds the `Composite` canvas, or the result reports the raise |
| `Conference.Render` | demo.py:102-146 | a fresh black `h` by `w` buffer is composited: it is absent exactly when `Composite` raises, and otherwise holds `Composite` |
| `Conference.Session.constructor` | demo.py:60-70 | the session starts with the screen size, the six loaded avatars and the flag unset |
| `Conference.Session.Step` | demo.py:72-151 | one pass of the main loop: the flag follows `NextStarted`; nothing is shown without a frame or before the flag is set; otherwise the frame is shown exactly when `Composite` succeeds, with its canvas, highlights and captions for the current focus, and raises exactly when it fails |

## Left out

- Pixel values produced by `cv2.resize`'s interpolation: the resize is the abstract `Resizer` parameter, known only to return the requested shape.
- BoxFitter.PlanFitRoundsRatio: the ratio and the products `pic_dim * ratio` are exact rationals here, not IEEE doubles. A double rounding that lands on the other side of a half is not captured.
- Saturation of OpenCV's `int` output size is not modelled; sizes are unbounded integers.
- Drawing into the canvas by `cv2.rectangle` and `cv2.putText` (lines 133-143 and 149-151). `Step` returns the rectangles and captions beside the canvas (the `Display` value) rather than drawing their pixels.
- Out of scope because they are I/O, each replaced by a parameter:
  - the gaze tracker's calibration and analysis, and the gaze direction text (lines 57-58, 77, 80-86 and 94);
  - the webcam read (line 74);
  - `cv2.imread` of the six avatars (lines 65-70);
  - the screen size (lines 60-62);
  - the full-screen window, `imshow`, `waitKey` and the Esc exit (lines 153-165).
- Gaze coordinates are integers. A float gaze point from the tracker is not modelled.
- `not_detected_frame` (lines 26-29) is never called by the demo.
- BoxFitter.PutPicCenter: requires the box to lie inside the canvas. Every box the demo passes does (`Layout.SceneInCanvas`). numpy's clipping and negative-index handling of slices for other boxes is not modelled. `Paste` is defined for any box but described only for boxes inside the canvas.
- `Conference.ValidAvatars` requires the six avatars to be loaded pictures. A failed `cv2.imread`, which returns `None` and makes the first `put_pic_center` call that uses it fail (at `pic.shape`, line 32), is not modelled.
- `Conference.Compose` runs the nine `put_pic_center` calls from the frame's list of placements in a loop, rather than as nine separate statements. The calls, their order and their arguments are those of lines 107-146; they stop at the first call that raises.
