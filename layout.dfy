/**
 * The fixed screen layout of the demo: seven boxes for the remote participants
 * and two for the user as seen by each of them, the avatar shown in each, the
 * highlight rectangles and the three labels. All divisions are the source's `//`,
 * which for a positive divisor is Dafny's `/`.
 */
module Layout {
  import opened Opt
  import opened Canvas
  import opened Focus

  /** Alice and Bob as the user sees them, on the left. */
  function MyAliceBox(w: int, h: int): Box { Box(0, h / 9, w * 3 / 10, h * 5 / 9) }
  function MyBobBox(w: int, h: int): Box { Box(0, h * 5 / 9, w * 3 / 10, h) }
  /** The user's own webcam image, in the middle. */
  function MyBox(w: int, h: int): Box { Box(w * 3 / 10, h / 9, w * 6 / 10, h) }
  /** Alice's window, top right: Alice, Bob and the user as she sees them. */
  function AliceAliceBox(w: int, h: int): Box { Box(w * 4 / 5, h / 10, w, h / 2) }
  function AliceBobBox(w: int, h: int): Box { Box(w * 3 / 5, h * 3 / 10, w * 4 / 5, h / 2) }
  function AliceMeBox(w: int, h: int): Box { Box(w * 3 / 5, h * 1 / 10, w * 4 / 5, h * 3 / 10) }
  /** Bob's window, bottom right. */
  function BobAliceBox(w: int, h: int): Box { Box(w * 3 / 5, h * 6 / 10, w * 4 / 5, h * 8 / 10) }
  function BobBobBox(w: int, h: int): Box { Box(w * 4 / 5, h * 6 / 10, w, h) }
  function BobMeBox(w: int, h: int): Box { Box(w * 3 / 5, h * 8 / 10, w * 4 / 5, h) }

  /**
   * The pictures placed on the canvas: the six avatar files (`_c` looking into
   * the camera, `_nc` looking away) and the mirrored webcam frame.
   */
  datatype Avatar = AliceC | AliceNc | MeC | MeNc | BobC | BobNc | Webcam

  /** The box in the user's view that shows person `p`. */
  function ViewOf(p: Person, w: int, h: int): Box {
    match p
    case Alice => MyAliceBox(w, h)
    case Bob => MyBobBox(w, h)
  }

  /** The box in person `p`'s window that shows the user. */
  function SelfViewAt(p: Person, w: int, h: int): Box {
    match p
    case Alice => AliceMeBox(w, h)
    case Bob => BobMeBox(w, h)
  }

  /** The user's avatar in `p`'s window: looking into the camera when `p` has the focus. */
  function SelfAvatar(p: Person, focus: Option<Person>): Avatar {
    if focus == Some(p) then MeC else MeNc
  }

  /** The nine `put_pic_center` calls of one composited frame, in the order they run. */
  function Scene(w: int, h: int, focus: Option<Person>): seq<(Avatar, Box)> {
    [ (AliceC, MyAliceBox(w, h)),
      (BobC, MyBobBox(w, h)),
      (Webcam, MyBox(w, h)),
      (AliceC, AliceAliceBox(w, h)),
      (BobNc, AliceBobBox(w, h)),
      (AliceNc, BobAliceBox(w, h)),
      (BobC, BobBobBox(w, h)),
      (SelfAvatar(Alice, focus), AliceMeBox(w, h)),
      (SelfAvatar(Bob, focus), BobMeBox(w, h)) ]
  }

  /** The rectangles drawn around the focused person and around the user in that person's window. */
  function Highlights(w: int, h: int, focus: Option<Person>): seq<Box> {
    match focus
    case Some(p) => [ViewOf(p, w, h), SelfViewAt(p, w, h)]
    case None => []
  }

  /** A piece of text drawn at a canvas position. */
  datatype Label = Label(text: string, x: int, y: int)

  /** The three window captions. */
  function Labels(w: int, h: int): seq<Label> {
    [Label("Me", 60, 50), Label("Alice", 60 + w * 3 / 5, 50), Label("Bob", 60 + w * 3 / 5, 50 + h / 2)]
  }

  /** The interiors of two boxes do not overlap. */
  predicate Disjoint(a: Box, b: Box) {
    a.right <= b.left || b.right <= a.left || a.bottom <= b.top || b.bottom <= a.top
  }

  /** Facts about floor division by the layout's denominators, for a non-negative dimension. */
  lemma Fractions(n: int)
    requires n >= 0
    ensures 0 <= n / 10 <= n / 9 <= n * 3 / 10 <= n / 2 <= n * 5 / 9 <= n * 6 / 10 <= n * 8 / 10 <= n
    ensures n * 6 / 10 == n * 3 / 5 && n * 8 / 10 == n * 4 / 5 && n * 1 / 10 == n / 10
    ensures n * 3 / 10 <= n * 3 / 5
  {
  }

  /** Every box lies within a `w` by `h` canvas. */
  lemma {:induction false} SceneInCanvas(w: int, h: int, focus: Option<Person>)
    requires w >= 0 && h >= 0
    ensures forall k :: 0 <= k < |Scene(w, h, focus)| ==> InCanvas(Scene(w, h, focus)[k].1, h, w)
  {
    Fractions(w);
    Fractions(h);
  }

  /** The highlight rectangles lie within the canvas too. */
  lemma {:induction false} HighlightsInCanvas(w: int, h: int, focus: Option<Person>)
    requires w >= 0 && h >= 0
    ensures forall b :: b in Highlights(w, h, focus) ==> InCanvas(b, h, w)
  {
    Fractions(w);
    Fractions(h);
  }

  /** Neighbouring boxes share their edges exactly. */
  lemma {:induction false} SharedEdges(w: int, h: int)
    requires w >= 0 && h >= 0
    ensures MyAliceBox(w, h).bottom == MyBobBox(w, h).top == h * 5 / 9
    ensures MyAliceBox(w, h).right == MyBobBox(w, h).right == MyBox(w, h).left
    ensures MyBox(w, h).right == AliceMeBox(w, h).left == BobMeBox(w, h).left
    ensures AliceMeBox(w, h).bottom == AliceBobBox(w, h).top == h * 3 / 10
    ensures AliceMeBox(w, h).right == AliceAliceBox(w, h).left
    ensures AliceBobBox(w, h).right == AliceAliceBox(w, h).left
    ensures BobAliceBox(w, h).bottom == BobMeBox(w, h).top
    ensures BobAliceBox(w, h).right == BobBobBox(w, h).left == BobMeBox(w, h).right
  {
    Fractions(w);
  }

  /** No two of the nine boxes overlap, so the order of the calls does not matter. */
  lemma {:induction false} SceneDisjoint(w: int, h: int, focus: Option<Person>)
    requires w >= 0 && h >= 0
    ensures forall i, j :: 0 <= i < j < |Scene(w, h, focus)| ==>
      Disjoint(Scene(w, h, focus)[i].1, Scene(w, h, focus)[j].1)
  {
    Fractions(w);
    Fractions(h);
  }

  /** On a screen of at least 10 by 10 pixels no box is empty. */
  lemma {:induction false} SceneBoxesNonEmpty(w: int, h: int, focus: Option<Person>)
    requires w >= 10 && h >= 10
    ensures forall k :: 0 <= k < |Scene(w, h, focus)| ==>
      Scene(w, h, focus)[k].1.Width() >= 1 && Scene(w, h, focus)[k].1.Height() >= 1
  {
    Fractions(w);
    Fractions(h);
  }

  /**
   * The highlight follows the focus: a box is highlighted exactly when it is the
   * focused person's box or the user's box in that person's window, and the
   * looking-into-the-camera avatar of the user is placed only in a highlighted box,
   * and there whenever some person has the focus.
   */
  lemma {:induction false} HighlightFollowsFocus(w: int, h: int, focus: Option<Person>)
    ensures forall b :: b in Highlights(w, h, focus) <==>
      focus.Some? && (b == ViewOf(focus.value, w, h) || b == SelfViewAt(focus.value, w, h))
    ensures forall k :: 0 <= k < |Scene(w, h, focus)| && Scene(w, h, focus)[k].0 == MeC ==>
      Scene(w, h, focus)[k].1 in Highlights(w, h, focus)
    ensures focus.Some? ==> (MeC, SelfViewAt(focus.value, w, h)) in Scene(w, h, focus)
    ensures focus.None? <==> Highlights(w, h, focus) == []
    ensures focus.None? ==> forall k :: 0 <= k < |Scene(w, h, focus)| ==> Scene(w, h, focus)[k].0 != MeC
  {
  }

  /** Only the two self-view entries depend on the focus. */
  lemma {:induction false} OnlySelfViewsDependOnFocus(w: int, h: int, f: Option<Person>, g: Option<Person>)
    ensures |Scene(w, h, f)| == |Scene(w, h, g)| == 9
    ensures Scene(w, h, f)[..7] == Scene(w, h, g)[..7]
    ensures Scene(w, h, f)[7].1 == AliceMeBox(w, h) && Scene(w, h, f)[8].1 == BobMeBox(w, h)
  {
  }
}
