/**
 * What one step of the render loop does to each field, and what the loop as a
 * whole computes, stated against independent definitions over the event
 * sequence (the last press or release of the left button, the number of Space
 * presses, the sum of the update deltas, ...).
 */
module FrameProperties {
  import opened Wrappers
  import opened Events
  import opened FrameState

  /** What holds of every state the loop can reach from `Initial()`. */
  predicate Reachable(f: Frame) {
    Synced(f) && f.params.resolution.z == 0.0 &&
    f.params.mouseState.z == 0.0 && f.params.mouseState.w == 0.0
  }

  // ---------------------------------------------------------------------------
  // Reference definitions over event sequences
  // ---------------------------------------------------------------------------

  /** The number of Space key presses among `es`. */
  function CountSpacePresses(es: seq<Event>): (n: nat)
    ensures n <= |es|
    ensures n == 0 <==> forall i :: 0 <= i < |es| ==> es[i] != Press(Keyboard(Space))
    decreases |es|
  {
    if es == [] then 0
    else CountSpacePresses(es[..|es| - 1]) + (if es[|es| - 1] == Press(Keyboard(Space)) then 1 else 0)
  }

  /** The most recent left-button edge in `es`: Some(true) for a press, Some(false) for a release. */
  function LastLeftEdge(es: seq<Event>): Option<bool>
    decreases |es|
  {
    if es == [] then None
    else if es[|es| - 1] == Press(Mouse(Left)) then Some(true)
    else if es[|es| - 1] == Release(Mouse(Left)) then Some(false)
    else LastLeftEdge(es[..|es| - 1])
  }

  /** The position reported by the most recent cursor event in `es`. */
  function LastCursor(es: seq<Event>): (r: Option<Vec2>)
    ensures r.Some? <==> exists i :: 0 <= i < |es| && es[i].Cursor?
    decreases |es|
  {
    if es == [] then None
    else if es[|es| - 1].Cursor? then Some(Vec2(es[|es| - 1].x, es[|es| - 1].y))
    else LastCursor(es[..|es| - 1])
  }

  /** The most recent render event in `es`. */
  function LastRender(es: seq<Event>): (r: Option<Event>)
    ensures r.Some? ==> r.value.Render? && r.value in es
    ensures r.None? ==> forall i :: 0 <= i < |es| ==> !es[i].Render?
    decreases |es|
  {
    if es == [] then None
    else if es[|es| - 1].Render? then Some(es[|es| - 1])
    else LastRender(es[..|es| - 1])
  }

  /** The sum of the `dt` of all update events in `es`. */
  function SumOfDeltas(es: seq<Event>): real
    decreases |es|
  {
    if es == [] then 0.0
    else SumOfDeltas(es[..|es| - 1]) + (if es[|es| - 1].Update? then es[|es| - 1].dt else 0.0)
  }

  /** No update event in `es` reports a negative `dt`. */
  predicate DeltasNonNegative(es: seq<Event>) {
    forall i :: 0 <= i < |es| ==> es[i].Update? ==> es[i].dt >= 0.0
  }

  /** No event in `es` presses the left mouse button. */
  predicate NoLeftPress(es: seq<Event>) {
    forall i :: 0 <= i < |es| ==> es[i] != Press(Mouse(Left))
  }

  // ---------------------------------------------------------------------------
  // One step
  // ---------------------------------------------------------------------------

  /** The initial record has the invariant every reachable state keeps. */
  lemma InitialState()
    ensures Reachable(Initial())
  {
  }

  /** After any event iMouse.xy follows the cursor if the button is held, and is left as it was otherwise. */
  lemma StepSticky(f: Frame, e: Event)
    ensures Synced(Step(f, e))
    ensures !Step(f, e).ui.mouseButtonHeld ==> Step(f, e).params.mouseState == f.params.mouseState
    ensures Step(f, e).params.mouseState.z == f.params.mouseState.z
    ensures Step(f, e).params.mouseState.w == f.params.mouseState.w
  {
  }

  /** A Space press flips `play` and changes nothing else. */
  lemma StepSpacePress(f: Frame)
    requires Synced(f)
    ensures Step(f, Press(Keyboard(Space))) == Frame(f.ui.(play := !f.ui.play), f.params)
  {
  }

  /** Two Space presses restore the state. */
  lemma StepSpaceTwice(f: Frame)
    requires Synced(f)
    ensures Step(Step(f, Press(Keyboard(Space))), Press(Keyboard(Space))) == f
  {
    StepSpacePress(f);
    StepSpacePress(Step(f, Press(Keyboard(Space))));
  }

  /** Pressing any other key, and releasing any key, changes nothing. */
  lemma StepIgnoredKeys(f: Frame, k: Key, r: Key)
    requires Synced(f)
    requires k != Space
    ensures Step(f, Press(Keyboard(k))) == f
    ensures Step(f, Release(Keyboard(r))) == f
  {
  }

  /**
   * A left press sets the button flag and copies the cursor already known into
   * iMouse.xy in the same step.
   */
  lemma StepLeftPress(f: Frame)
    ensures Step(f, Press(Mouse(Left))).ui == f.ui.(mouseButtonHeld := true)
    ensures Step(f, Press(Mouse(Left))).params ==
      f.params.(mouseState := f.params.mouseState.(x := f.ui.mousePosition.x, y := f.ui.mousePosition.y))
  {
  }

  /** A left release clears the button flag and does not copy the cursor. */
  lemma StepLeftRelease(f: Frame)
    ensures Step(f, Release(Mouse(Left))) == Frame(f.ui.(mouseButtonHeld := false), f.params)
  {
  }

  /** Pressing or releasing any other mouse button changes nothing. */
  lemma StepOtherMouseButton(f: Frame, b: MouseButton)
    requires Synced(f)
    requires b != Left
    ensures Step(f, Press(Mouse(b))) == f
    ensures Step(f, Release(Mouse(b))) == f
  {
  }

  /** A cursor event records the position whatever the button state, and iMouse follows only while held. */
  lemma StepCursor(f: Frame, x: real, y: real)
    ensures Step(f, Cursor(x, y)).ui == f.ui.(mousePosition := Vec2(x, y))
    ensures f.ui.mouseButtonHeld ==>
      Step(f, Cursor(x, y)).params == f.params.(mouseState := f.params.mouseState.(x := x, y := y))
    ensures !f.ui.mouseButtonHeld ==> Step(f, Cursor(x, y)).params == f.params
  {
  }

  /** An update adds exactly `dt` to iGlobalTime while playing, and nothing otherwise. */
  lemma StepUpdate(f: Frame, dt: real)
    requires Synced(f)
    ensures f.ui.play ==> Step(f, Update(dt)) == Frame(f.ui, f.params.(globalTime := f.params.globalTime + dt))
    ensures !f.ui.play ==> Step(f, Update(dt)) == f
  {
  }

  /**
   * A render writes the window size into iResolution.xy and the counter's value
   * into `fps`; iResolution.z, `play`, the button, the cursor and the time are untouched.
   */
  lemma StepRender(f: Frame, w: nat, h: nat, n: nat)
    requires Synced(f)
    ensures Step(f, Render(w, h, n)) ==
      Frame(f.ui.(fps := n), f.params.(resolution := Vec3(w as real, h as real, f.params.resolution.z)))
  {
  }

  /** Any other event changes nothing. */
  lemma StepOther(f: Frame)
    requires Synced(f)
    ensures Step(f, Other) == f
  {
  }

  /** Only update events move iGlobalTime, and a non-negative delta never moves it back. */
  lemma StepTime(f: Frame, e: Event)
    ensures !e.Update? ==> Step(f, e).params.globalTime == f.params.globalTime
    ensures e.Update? && f.ui.play ==> Step(f, e).params.globalTime == f.params.globalTime + e.dt
    ensures e.Update? && !f.ui.play ==> Step(f, e).params.globalTime == f.params.globalTime
    ensures e.Update? && e.dt >= 0.0 ==> Step(f, e).params.globalTime >= f.params.globalTime
  {
  }

  // ---------------------------------------------------------------------------
  // The whole loop
  // ---------------------------------------------------------------------------

  /** Running two batches of events one after the other is running their concatenation. */
  lemma {:induction false} RunConcat(f: Frame, a: seq<Event>, b: seq<Event>)
    ensures Run(f, a + b) == Run(Run(f, a), b)
    decreases |b|
  {
    if b == [] {
      assert a + b == a;
    } else {
      var b' := b[..|b| - 1];
      assert (a + b)[..|a + b| - 1] == a + b';
      RunConcat(f, a, b');
    }
  }

  /** `play` is the initial flag flipped once per Space press. */
  lemma {:induction false} RunPlay(f: Frame, es: seq<Event>)
    ensures Run(f, es).ui.play == (f.ui.play != (CountSpacePresses(es) % 2 == 1))
    decreases |es|
  {
    if es != [] {
      RunPlay(f, es[..|es| - 1]);
    }
  }

  /** The button flag is set iff the last left-button edge was a press (the initial flag if there was none). */
  lemma {:induction false} RunMouseButton(f: Frame, es: seq<Event>)
    ensures Run(f, es).ui.mouseButtonHeld ==
      match LastLeftEdge(es)
      case Some(pressed) => pressed
      case None => f.ui.mouseButtonHeld
    decreases |es|
  {
    if es != [] {
      RunMouseButton(f, es[..|es| - 1]);
    }
  }

  /** The cursor position is the one reported by the last cursor event, whatever the button did. */
  lemma {:induction false} RunCursor(f: Frame, es: seq<Event>)
    ensures Run(f, es).ui.mousePosition ==
      match LastCursor(es)
      case Some(p) => p
      case None => f.ui.mousePosition
    decreases |es|
  {
    if es != [] {
      RunCursor(f, es[..|es| - 1]);
    }
  }

  /** iResolution.xy and `fps` come from the last render event. */
  lemma {:induction false} RunRender(f: Frame, es: seq<Event>)
    ensures LastRender(es).Some? ==>
      Run(f, es).params.resolution.x == LastRender(es).value.width as real &&
      Run(f, es).params.resolution.y == LastRender(es).value.height as real &&
      Run(f, es).ui.fps == LastRender(es).value.fps
    ensures LastRender(es).None? ==>
      Run(f, es).params.resolution == f.params.resolution && Run(f, es).ui.fps == f.ui.fps
    decreases |es|
  {
    if es != [] {
      RunRender(f, es[..|es| - 1]);
    }
  }

  /** After at least one event, or from a synced start, iMouse.xy shows the cursor while the button is held. */
  lemma RunMouseState(f: Frame, es: seq<Event>)
    requires es != [] || Synced(f)
    ensures Synced(Run(f, es))
  {
  }

  /** Sticky iMouse: with the button up and never pressed, iMouse keeps its last value, however the cursor moves. */
  lemma {:induction false} RunSticky(f: Frame, es: seq<Event>)
    requires !f.ui.mouseButtonHeld
    requires NoLeftPress(es)
    ensures !Run(f, es).ui.mouseButtonHeld
    ensures Run(f, es).params.mouseState == f.params.mouseState
    decreases |es|
  {
    if es != [] {
      RunSticky(f, es[..|es| - 1]);
    }
  }

  /** Every state the loop reaches from the initial one keeps iResolution.z and iMouse.zw at 0 and iMouse in sync. */
  lemma RunReachable(es: seq<Event>)
    ensures Reachable(Run(Initial(), es))
  {
    InitialState();
    RunMouseState(Initial(), es);
  }

  /** While playing throughout, iGlobalTime grows by exactly the sum of the deltas. */
  lemma {:induction false} RunTimePlaying(f: Frame, es: seq<Event>)
    requires f.ui.play
    requires CountSpacePresses(es) == 0
    ensures Run(f, es).ui.play
    ensures Run(f, es).params.globalTime == f.params.globalTime + SumOfDeltas(es)
    decreases |es|
  {
    if es != [] {
      RunTimePlaying(f, es[..|es| - 1]);
    }
  }

  /** While paused throughout, iGlobalTime does not move. */
  lemma {:induction false} RunTimePaused(f: Frame, es: seq<Event>)
    requires !f.ui.play
    requires CountSpacePresses(es) == 0
    ensures !Run(f, es).ui.play
    ensures Run(f, es).params.globalTime == f.params.globalTime
    decreases |es|
  {
    if es != [] {
      RunTimePaused(f, es[..|es| - 1]);
    }
  }

  /** With non-negative deltas iGlobalTime never decreases, paused or not. */
  lemma {:induction false} RunTimeMonotone(f: Frame, es: seq<Event>)
    requires DeltasNonNegative(es)
    ensures Run(f, es).params.globalTime >= f.params.globalTime
    decreases |es|
  {
    if es != [] {
      var init := es[..|es| - 1];
      assert DeltasNonNegative(init) by {
        forall i | 0 <= i < |init| ensures init[i].Update? ==> init[i].dt >= 0.0 {
          assert init[i] == es[i];
        }
      }
      RunTimeMonotone(f, init);
      StepTime(Run(f, init), es[|es| - 1]);
    }
  }

  /**
   * Pausing and resuming: play through `a`, press Space, let anything without a
   * Space press happen in `paused`, press Space again and play through `b`; the
   * clock counts the deltas of `a` and `b` only, and resumes from where it stopped.
   */
  lemma PauseResume(f: Frame, a: seq<Event>, paused: seq<Event>, b: seq<Event>)
    requires f.ui.play
    requires CountSpacePresses(a) == 0 && CountSpacePresses(paused) == 0 && CountSpacePresses(b) == 0
    ensures Run(f, a + [Press(Keyboard(Space))] + paused + [Press(Keyboard(Space))] + b).params.globalTime ==
      f.params.globalTime + SumOfDeltas(a) + SumOfDeltas(b)
  {
    var sp := Press(Keyboard(Space));
    var f1 := Run(f, a);
    RunTimePlaying(f, a);
    var f2 := Step(f1, sp);
    assert Run(f1, [sp]) == f2;
    var f3 := Run(f2, paused);
    RunTimePaused(f2, paused);
    var f4 := Step(f3, sp);
    assert Run(f3, [sp]) == f4;
    RunTimePlaying(f4, b);
    RunConcat(f, a, [sp]);
    RunConcat(f, a + [sp], paused);
    RunConcat(f, a + [sp] + paused, [sp]);
    RunConcat(f, a + [sp] + paused + [sp], b);
  }

  /**
   * The sticky-uniform scenario: press at (10, 20), render, release, move to
   * (50, 60), render again; iMouse still reads (10, 20), neither (50, 60) nor (0, 0).
   */
  lemma StickyScenario()
    ensures Run(Initial(), [Cursor(10.0, 20.0), Press(Mouse(Left)), Render(640, 480, 0),
                            Release(Mouse(Left)), Cursor(50.0, 60.0), Render(640, 480, 0)]).params.mouseState
            == Vec4(10.0, 20.0, 0.0, 0.0)
  {
    var es := [Cursor(10.0, 20.0), Press(Mouse(Left)), Render(640, 480, 0),
               Release(Mouse(Left)), Cursor(50.0, 60.0), Render(640, 480, 0)];
    assert es[..1] == [Cursor(10.0, 20.0)] && es[..1][..0] == [];
    assert es[..2] == [Cursor(10.0, 20.0), Press(Mouse(Left))] && es[..2][..1] == es[..1];
    assert es[..3][..2] == es[..2];
    var g1 := Run(Initial(), es[..1]);
    assert g1 == Step(Run(Initial(), []), Cursor(10.0, 20.0));
    var g2 := Run(Initial(), es[..2]);
    assert g2 == Step(g1, Press(Mouse(Left)));
    StepLeftPress(g1);
    var g := Run(Initial(), es[..3]);
    assert g == Step(g2, Render(640, 480, 0));
    assert g.params.mouseState == Vec4(10.0, 20.0, 0.0, 0.0) && g.ui.mouseButtonHeld;
    RunConcat(Initial(), es[..3], es[3..]);
    assert es[..3] + es[3..] == es;
    assert !Step(g, es[3]).ui.mouseButtonHeld;
    RunSticky(Step(g, es[3]), es[4..]);
    assert [es[3]] + es[4..] == es[3..];
    RunConcat(g, [es[3]], es[4..]);
    assert Run(g, [es[3]]) == Step(g, es[3]);
  }
}
