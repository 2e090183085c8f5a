/**
 * One frame of the main loop: the `start_conference` latch, the focus, and the
 * compositing of the nine pictures into a fresh black canvas.
 */
module Conference {
  import opened Opt
  import opened Canvas
  import opened BoxFitter
  import opened Focus
  import opened Layout

  /** The six avatar pictures loaded at start-up. */
  datatype Avatars = Avatars(aliceC: Image, aliceNc: Image, meC: Image, meNc: Image, bobC: Image, bobNc: Image)

  predicate ValidAvatars(a: Avatars) {
    IsPicture(a.aliceC) && IsPicture(a.aliceNc) && IsPicture(a.meC)
    && IsPicture(a.meNc) && IsPicture(a.bobC) && IsPicture(a.bobNc)
  }

  /** The picture an avatar stands for; `me` is the mirrored webcam frame. */
  function Picture(av: Avatar, avatars: Avatars, me: Image): Image {
    match av
    case AliceC => avatars.aliceC
    case AliceNc => avatars.aliceNc
    case MeC => avatars.meC
    case MeNc => avatars.meNc
    case BobC => avatars.bobC
    case BobNc => avatars.bobNc
    case Webcam => me
  }

  /** The scene with every avatar replaced by its picture. */
  function Placements(scene: seq<(Avatar, Box)>, avatars: Avatars, me: Image): (ps: seq<(Image, Box)>)
    requires ValidAvatars(avatars) && IsPicture(me)
    ensures |ps| == |scene|
    ensures forall k :: 0 <= k < |scene| ==> ps[k] == (Picture(scene[k].0, avatars, me), scene[k].1)
    ensures AllPictures(ps)
  {
    seq(|scene|, k requires 0 <= k < |scene| => (Picture(scene[k].0, avatars, me), scene[k].1))
  }

  predicate AllPictures(ps: seq<(Image, Box)>) {
    forall k :: 0 <= k < |ps| ==> IsPicture(ps[k].0)
  }

  /** Every box of the placements lies inside every row of `g`. */
  predicate AllFit(ps: seq<(Image, Box)>, g: Image) {
    forall k :: 0 <= k < |ps| ==> FitsGrid(ps[k].1, g)
  }

  /**
   * The canvas after `put_pic_center` has run for each placement from index `from`
   * on, in order, or `None` as soon as one of the calls raises.
   */
  function PasteAll(g: Image, ps: seq<(Image, Box)>, from: nat, resize: Resizer): (r: Option<Image>)
    requires AllPictures(ps)
    ensures r.Some? ==> |r.value| == |g| && forall row :: 0 <= row < |g| ==> |r.value[row]| == |g[row]|
    decreases |ps| - from
  {
    if from >= |ps| then Some(g)
    else
      match Paste(g, ps[from].0, ps[from].1, resize)
      case None => None
      case Some(next) => PasteAll(next, ps, from + 1, resize)
  }

  /** The composition raises exactly when one of the pictures resizes to nothing. */
  lemma {:induction false} PasteAllRaises(g: Image, ps: seq<(Image, Box)>, from: nat, resize: Resizer)
    requires AllPictures(ps)
    ensures PasteAll(g, ps, from, resize).None?
      <==> exists k :: from <= k < |ps| && !Resizable(FitIn(ps[k].0, ps[k].1))
    decreases |ps| - from
  {
    if from < |ps| && Paste(g, ps[from].0, ps[from].1, resize).Some? {
      PasteAllRaises(Paste(g, ps[from].0, ps[from].1, resize).value, ps, from + 1, resize);
    }
  }

  /** Placements that render start with a `Paste` that succeeds, and render from there. */
  lemma Unfold(g: Image, ps: seq<(Image, Box)>, from: nat, resize: Resizer) returns (next: Image)
    requires AllPictures(ps) && AllFit(ps, g) && from < |ps|
    requires PasteAll(g, ps, from, resize).Some?
    ensures IsPicture(ps[from].0) && FitsGrid(ps[from].1, g)
    ensures Paste(g, ps[from].0, ps[from].1, resize) == Some(next)
    ensures AllFit(ps, next)
    ensures PasteAll(next, ps, from + 1, resize) == PasteAll(g, ps, from, resize)
  {
    next := Paste(g, ps[from].0, ps[from].1, resize).value;
  }

  /** A pixel outside every box keeps its value. */
  lemma {:induction false} PasteAllKeeps(g: Image, ps: seq<(Image, Box)>, from: nat, resize: Resizer,
                                         row: int, col: int)
    requires AllPictures(ps) && AllFit(ps, g)
    requires PasteAll(g, ps, from, resize).Some?
    requires 0 <= row < |g| && 0 <= col < |g[row]|
    requires forall k :: from <= k < |ps| ==> !ps[k].1.Contains(row, col)
    ensures PasteAll(g, ps, from, resize).value[row][col] == g[row][col]
    decreases |ps| - from
  {
    if from < |ps| {
      var next := Unfold(g, ps, from, resize);
      PasteKeepsOutsideBox(g, ps[from].0, ps[from].1, resize, row, col);
      PasteAllKeeps(next, ps, from + 1, resize, row, col);
    }
  }

  /**
   * When no later box overlaps placement `k`'s box, the target rectangle of placement
   * `k` ends up showing its resized picture, pixel for pixel.
   */
  lemma {:induction false} PasteAllShows(g: Image, ps: seq<(Image, Box)>, from: nat, resize: Resizer,
                                         k: int, pic: Image, box: Box, i: int, j: int)
    requires AllPictures(ps) && AllFit(ps, g)
    requires PasteAll(g, ps, from, resize).Some?
    requires from <= k < |ps| && ps[k].0 == pic && ps[k].1 == box
    requires IsPicture(pic) && Resizable(FitIn(pic, box))
    requires 0 <= i < FitIn(pic, box).height && 0 <= j < FitIn(pic, box).width
    requires forall m :: k < m < |ps| ==> Disjoint(box, ps[m].1)
    ensures var t := Target(pic, box);
      && 0 <= t.top + i < |g| && 0 <= t.left + j < |g[t.top + i]|
      && PasteAll(g, ps, from, resize).value[t.top + i][t.left + j] == Resized(pic, box, resize)[i][j]
    decreases |ps| - from
  {
    if k == from {
      FirstShows(g, ps, from, resize, pic, box, i, j);
    } else {
      var next := Unfold(g, ps, from, resize);
      PasteAllShows(next, ps, from + 1, resize, k, pic, box, i, j);
    }
  }

  /** The case of the first placement: what it writes, no later call overwrites. */
  lemma FirstShows(g: Image, ps: seq<(Image, Box)>, from: nat, resize: Resizer,
                   pic: Image, box: Box, i: int, j: int)
    requires AllPictures(ps) && AllFit(ps, g)
    requires PasteAll(g, ps, from, resize).Some?
    requires from < |ps| && ps[from].0 == pic && ps[from].1 == box
    requires IsPicture(pic) && Resizable(FitIn(pic, box))
    requires 0 <= i < FitIn(pic, box).height && 0 <= j < FitIn(pic, box).width
    requires forall m :: from < m < |ps| ==> Disjoint(box, ps[m].1)
    ensures var t := Target(pic, box);
      && 0 <= t.top + i < |g| && 0 <= t.left + j < |g[t.top + i]|
      && PasteAll(g, ps, from, resize).value[t.top + i][t.left + j] == Resized(pic, box, resize)[i][j]
  {
    var next := Unfold(g, ps, from, resize);
    var t := Target(pic, box);
    var row, col := t.top + i, t.left + j;
    PasteShowsPicture(g, pic, box, resize, i, j);
    assert box.Contains(row, col);
    forall m | from + 1 <= m < |ps|
      ensures !ps[m].1.Contains(row, col)
    {
      DisjointMisses(box, ps[m].1, row, col);
    }
    PasteAllKeeps(next, ps, from + 1, resize, row, col);
    assert next[row][col] == Resized(pic, box, resize)[i][j];
    assert PasteAll(g, ps, from, resize).value == PasteAll(next, ps, from + 1, resize).value;
  }

  /** A pixel of one of two disjoint boxes is not in the other. */
  lemma DisjointMisses(a: Box, b: Box, row: int, col: int)
    requires Disjoint(a, b) && a.Contains(row, col)
    ensures !b.Contains(row, col)
  {
  }

  /** The nine placements of one frame; `webcam` is the frame as read, before mirroring. */
  function FramePlacements(w: int, h: int, focus: Option<Person>, avatars: Avatars, webcam: Image)
    : seq<(Image, Box)>
    requires ValidAvatars(avatars) && IsPicture(webcam)
  {
    Placements(Scene(w, h, focus), avatars, FlipHorizontal(webcam))
  }

  /** The composited canvas of one frame, before highlights and labels are drawn. */
  function Composite(w: nat, h: nat, focus: Option<Person>, avatars: Avatars, webcam: Image,
                     resize: Resizer): (r: Option<Image>)
    requires ValidAvatars(avatars) && IsPicture(webcam)
    ensures r.Some? ==> IsGrid(r.value, h, w)
  {
    var blank := Filled(h, w, Black);
    PasteAll(blank, FramePlacements(w, h, focus, avatars, webcam), 0, resize)
  }

  /** The nine placements fit the blank canvas and their boxes do not overlap. */
  lemma FrameFacts(w: nat, h: nat, focus: Option<Person>, avatars: Avatars, webcam: Image)
    requires ValidAvatars(avatars) && IsPicture(webcam)
    ensures var ps := FramePlacements(w, h, focus, avatars, webcam);
      && |ps| == 9 && AllPictures(ps) && AllFit(ps, Filled(h, w, Black))
      && (forall k :: 0 <= k < 9 ==> ps[k].1 == Scene(w, h, focus)[k].1)
      && (forall m, n :: 0 <= m < n < 9 ==> Disjoint(ps[m].1, ps[n].1))
  {
    SceneInCanvas(w, h, focus);
    SceneDisjoint(w, h, focus);
  }

  /**
   * In a composited canvas the target rectangle of each of the nine placements
   * shows its resized picture (the mirrored webcam frame for the middle box).
   */
  lemma CompositeShows(w: nat, h: nat, focus: Option<Person>, avatars: Avatars, webcam: Image,
                       resize: Resizer, k: int, pic: Image, box: Box, i: int, j: int)
    requires ValidAvatars(avatars) && IsPicture(webcam)
    requires Composite(w, h, focus, avatars, webcam, resize).Some?
    requires 0 <= k < 9
    requires FramePlacements(w, h, focus, avatars, webcam)[k].0 == pic
    requires FramePlacements(w, h, focus, avatars, webcam)[k].1 == box
    requires IsPicture(pic) && 0 <= i < FitIn(pic, box).height && 0 <= j < FitIn(pic, box).width
    ensures Resizable(FitIn(pic, box))
    ensures var t := Target(pic, box); var c := Composite(w, h, focus, avatars, webcam, resize).value;
      && 0 <= t.top + i < |c| && 0 <= t.left + j < |c[t.top + i]|
      && c[t.top + i][t.left + j] == Resized(pic, box, resize)[i][j]
  {
    var ps := FramePlacements(w, h, focus, avatars, webcam);
    FrameFacts(w, h, focus, avatars, webcam);
    PasteAllShows(Filled(h, w, Black), ps, 0, resize, k, pic, box, i, j);
  }

  /** Every pixel outside the nine boxes of a composited canvas is black. */
  lemma CompositeBlackElsewhere(w: nat, h: nat, focus: Option<Person>, avatars: Avatars, webcam: Image,
                                resize: Resizer, row: int, col: int)
    requires ValidAvatars(avatars) && IsPicture(webcam)
    requires Composite(w, h, focus, avatars, webcam, resize).Some?
    requires 0 <= row < h && 0 <= col < w
    requires forall k :: 0 <= k < 9 ==> !Scene(w, h, focus)[k].1.Contains(row, col)
    ensures var c := Composite(w, h, focus, avatars, webcam, resize).value;
      |c| == h && |c[row]| == w && c[row][col] == Black
  {
    SceneInCanvas(w, h, focus);
    PasteAllKeeps(Filled(h, w, Black), FramePlacements(w, h, focus, avatars, webcam), 0, resize, row, col);
  }

  /**
   * One `put_pic_center` call of a frame, for placement `n` of `ps`: when it succeeds
   * the rest of the composition carries on from the new canvas, and when it raises
   * the composition raises too.
   */
  method Place(frame: array2<Pixel>, pic: Image, box: Box, resize: Resizer,
               ghost ps: seq<(Image, Box)>, ghost n: nat)
    returns (ok: bool)
    requires AllPictures(ps) && n < |ps| && ps[n].0 == pic && ps[n].1 == box
    requires InCanvas(box, frame.Length0, frame.Length1)
    modifies frame
    ensures ok <==> Resizable(FitIn(pic, box))
    ensures ok ==> Paste(old(Grid(frame)), pic, box, resize) == Some(Grid(frame))
    ensures !ok ==> unchanged(frame)
    ensures PasteAll(old(Grid(frame)), ps, n, resize)
      == if ok then PasteAll(Grid(frame), ps, n + 1, resize) else None
  {
    var r := PutPicCenter(frame, pic, box, resize);
    ok := r.Some?;
  }

  /** The blank canvas of a frame. */
  lemma BlankGrid(frame: array2<Pixel>)
    requires forall row, col :: 0 <= row < frame.Length0 && 0 <= col < frame.Length1 ==> frame[row, col] == Black
    ensures Grid(frame) == Filled(frame.Length0, frame.Length1, Black)
  {
    forall row | 0 <= row < frame.Length0
      ensures Grid(frame)[row] == Filled(frame.Length0, frame.Length1, Black)[row]
    {
    }
  }

  /**
   * The nine `put_pic_center` calls on a black `h` by `w` canvas, in the source's
   * order, taken from the frame's list of placements; `ok` is false when one of
   * them raises, and the calls after it are not made.
   */
  method Compose(frame: array2<Pixel>, w: nat, h: nat, focus: Option<Person>, avatars: Avatars,
                 webcam: Image, resize: Resizer)
    returns (ok: bool)
    requires ValidAvatars(avatars) && IsPicture(webcam)
    requires frame.Length0 == h && frame.Length1 == w
    requires forall row, col :: 0 <= row < h && 0 <= col < w ==> frame[row, col] == Black
    modifies frame
    ensures Composite(w, h, focus, avatars, webcam, resize) == if ok then Some(Grid(frame)) else None
  {
    var ps := FramePlacements(w, h, focus, avatars, webcam);
    BlankGrid(frame);
    SceneInCanvas(w, h, focus);
    ok := true;
    var n := 0;
    while n < |ps|
      invariant 0 <= n <= |ps|
      invariant Composite(w, h, focus, avatars, webcam, resize) == PasteAll(Grid(frame), ps, n, resize)
    {
      ok := Place(frame, ps[n].0, ps[n].1, resize, ps, n);
      if !ok {
        return;
      }
      n := n + 1;
    }
  }

  /**
   * The compositing part of the main loop: a fresh black `h` by `w` canvas with the
   * nine pictures placed in it, or `None` when one of the resizes raises.
   */
  method Render(w: nat, h: nat, focus: Option<Person>, avatars: Avatars, webcam: Image, resize: Resizer)
    returns (canvas: Option<array2<Pixel>>)
    requires ValidAvatars(avatars) && IsPicture(webcam)
    ensures canvas.None? <==> Composite(w, h, focus, avatars, webcam, resize).None?
    ensures canvas.Some? ==> fresh(canvas.value) && canvas.value.Length0 == h && canvas.value.Length1 == w
    ensures canvas.Some? ==> Composite(w, h, focus, avatars, webcam, resize) == Some(Grid(canvas.value))
  {
    var frame := new Pixel[h, w]((_, _) => Black);
    var ok := Compose(frame, w, h, focus, avatars, webcam, resize);
    canvas := if ok then Some(frame) else None;
  }

  /**
   * What a pass of the main loop puts on the screen. `Raised` is the exception a
   * failed `cv2.resize` throws: nothing catches it, so the program ends there.
   */
  datatype Display =
    | NothingShown
    | Shown(canvas: array2<Pixel>, highlights: seq<Box>, labels: seq<Label>)
    | Raised

  /** The demo session: screen size, avatars and the `start_conference` flag. */
  class Session {
    const width: nat
    const height: nat
    const avatars: Avatars
    var started: bool

    constructor (width: nat, height: nat, avatars: Avatars)
      requires ValidAvatars(avatars)
      ensures this.width == width && this.height == height && this.avatars == avatars
      ensures !started
    {
      this.width := width;
      this.height := height;
      this.avatars := avatars;
      started := false;
    }

    /**
     * One pass of the main loop with the webcam frame (if one was read) and the gaze
     * point. The flag latches on the first frame with both coordinates; while it is
     * set every frame is composited, with the highlights for the current focus.
     */
    method Step(camera: Option<Image>, x: Option<int>, y: Option<int>, resize: Resizer)
      returns (display: Display)
      requires ValidAvatars(avatars) && (camera.Some? ==> IsPicture(camera.value))
      modifies this
      ensures started == NextStarted(old(started), Tick(camera.Some?, x, y))
      ensures camera.None? || !started ==> display == NothingShown
      ensures camera.Some? && started ==>
        var focus := Classify(x, y, width, height);
        var expected := Composite(width, height, focus, avatars, camera.value, resize);
        && (display.Raised? <==> expected.None?)
        && (display.Shown? <==> expected.Some?)
        && (display.Shown? ==>
              && fresh(display.canvas)
              && expected == Some(Grid(display.canvas))
              && display.highlights == Highlights(width, height, focus)
              && display.labels == Labels(width, height))
    {
      display := NothingShown;
      if camera.Some? {
        var focus: Option<Person> := None;
        if x.Some? && y.Some? {
          started := true;
          focus := Classify(x, y, width, height);
        }
        if started {
          var canvas := Render(width, height, focus, avatars, camera.value, resize);
          if canvas.Some? {
            display := Shown(canvas.value, Highlights(width, height, focus), Labels(width, height));
          } else {
            display := Raised;
          }
        }
      }
    }
  }
}
