/**
 * Which remote participant the user is looking at, and the one-way
 * `start_conference` flag of the main loop.
 */
module Focus {
  import opened Opt

  datatype Person = Alice | Bob

  /**
   * The focus for a gaze point on a `w` by `h` screen. `x < w*3/10` is a
   * comparison against a float quotient in the source; here it is the exact
   * integer form `10*x < 3*w`, and the contract states the real-number form.
   */
  function Classify(x: Option<int>, y: Option<int>, w: int, h: int): (focus: Option<Person>)
    ensures x.None? || y.None? ==> focus.None?
    ensures focus == Some(Alice) <==>
      x.Some? && y.Some? && (x.value as real) < (w as real) * 3.0 / 10.0
      && (y.value as real) < (h as real) * 5.0 / 9.0
    ensures focus == Some(Bob) <==>
      x.Some? && y.Some? && (x.value as real) < (w as real) * 3.0 / 10.0
      && (y.value as real) >= (h as real) * 5.0 / 9.0
  {
    if x.Some? && y.Some? && 10 * x.value < 3 * w then
      if 9 * y.value < 5 * h then Some(Alice) else Some(Bob)
    else None
  }

  /** The classifications on a 1000 by 900 screen. */
  lemma ClassifyExamples()
    ensures Classify(Some(100), Some(200), 1000, 900) == Some(Alice)
    ensures Classify(Some(100), Some(600), 1000, 900) == Some(Bob)
    ensures Classify(Some(500), Some(500), 1000, 900) == None
    ensures Classify(None, None, 1000, 900) == None
  {
  }

  /** What one pass of the main loop sees: whether the webcam gave a frame, and the gaze point. */
  datatype Tick = Tick(frameRead: bool, x: Option<int>, y: Option<int>)

  /** The tick sets the flag: a frame was read and both gaze coordinates are present. */
  predicate Starts(t: Tick) {
    t.frameRead && t.x.Some? && t.y.Some?
  }

  /** `start_conference` after one more pass of the loop. */
  function NextStarted(started: bool, t: Tick): bool {
    started || Starts(t)
  }

  /** `start_conference` after the given passes; it starts out `False`. */
  function StartedAfter(ticks: seq<Tick>): bool {
    if ticks == [] then false
    else NextStarted(StartedAfter(ticks[..|ticks| - 1]), ticks[|ticks| - 1])
  }

  /** The flag is set exactly when some pass so far read a frame with a full gaze point. */
  lemma {:induction false} StartedIffSeen(ticks: seq<Tick>)
    ensures StartedAfter(ticks) <==> exists k :: 0 <= k < |ticks| && Starts(ticks[k])
  {
    if ticks != [] {
      var init := ticks[..|ticks| - 1];
      StartedIffSeen(init);
      if StartedAfter(init) {
        var k :| 0 <= k < |init| && Starts(init[k]);
        assert ticks[k] == init[k];
      }
      if k :| 0 <= k < |ticks| && Starts(ticks[k]) {
        if k < |init| {
          assert init[k] == ticks[k];
        }
      }
    }
  }

  /** Once set, the flag is never reset, whatever later passes see. */
  lemma {:induction false} StartedStays(ticks: seq<Tick>, later: seq<Tick>)
    requires StartedAfter(ticks)
    ensures StartedAfter(ticks + later)
  {
    if later != [] {
      var all := ticks + later;
      assert all[..|all| - 1] == ticks + later[..|later| - 1];
      StartedStays(ticks, later[..|later| - 1]);
    } else {
      assert ticks + later == ticks;
    }
  }
}
