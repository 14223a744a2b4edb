/**
 * The slide-navigation state machine of gesture_controll.py
 * (control_presentation) and the stand-alone gesture loop of that file.
 * Slides are numbered from 1; slide 0 means nothing is shown. The display
 * calls become commands: `Show(n)` puts slide n on the slideshow window,
 * `Clear` closes that window.
 */
module SlideControl {
  import opened Wrappers
  import opened GestureClassifier

  datatype Command = Show(slide: int) | Clear

  datatype SlideState = SlideState(current: int, active: bool)

  datatype Transition = Transition(state: SlideState, command: Option<Command>)

  /** The state at start-up: no slide, slideshow off. */
  const Inactive: SlideState := SlideState(0, false)

  /** The stand-alone gesture loop loads the nine images 1.jpg .. 9.jpg. */
  const DemoSlideCount: nat := 9

  /** The slide number is a slide or 0, and a running slideshow shows a real slide. */
  predicate InRange(s: SlideState, slideCount: nat)
  {
    0 <= s.current <= slideCount && (s.active ==> 1 <= s.current)
  }

  /**
   * One gesture applied to the slideshow. Start and End act in every state;
   * Previous and Next act only on a running slideshow away from the first
   * and the last slide; no gesture changes nothing.
   */
  function ControlPresentation(gesture: Option<Gesture>, slideCount: nat, s: SlideState): (t: Transition)
    ensures gesture == None ==> t == Transition(s, None)
    ensures t.state.active && !s.active ==> gesture == Some(Start)
    ensures t.state.current != s.current ==> gesture.Some?
    ensures gesture == Some(Previous) || gesture == Some(Next) ==> t.state.active == s.active
    ensures t.command == Some(Clear) <==> gesture == Some(End)
    ensures t.command.Some? && t.command.value.Show? ==>
      t.command.value.slide == t.state.current && t.state.active
    ensures InRange(s, slideCount) && t.command.Some? && t.command.value.Show? ==>
      1 <= t.command.value.slide <= slideCount
    ensures 1 <= slideCount && InRange(s, slideCount) ==> InRange(t.state, slideCount)
  {
    match gesture
    case None => Transition(s, None)
    case Some(Start) =>
      Transition(SlideState(1, true), if slideCount > 0 then Some(Show(1)) else None)
    case Some(Previous) =>
      if s.active && s.current > 1 then
        Transition(SlideState(s.current - 1, s.active), Some(Show(s.current - 1)))
      else Transition(s, None)
    case Some(Next) =>
      if s.active && s.current < slideCount then
        Transition(SlideState(s.current + 1, s.active), Some(Show(s.current + 1)))
      else Transition(s, None)
    case Some(End) => Transition(Inactive, Some(Clear))
  }

  /**
   * Start always yields slide 1 running and shows it when there are slides;
   * End always yields the start-up state and closes the window.
   */
  lemma StartAndEndFromAnyState(slideCount: nat, s: SlideState)
    ensures ControlPresentation(Some(Start), slideCount, s) ==
      Transition(SlideState(1, true), if slideCount > 0 then Some(Show(1)) else None)
    ensures ControlPresentation(Some(End), slideCount, s) == Transition(Inactive, Some(Clear))
  {
  }

  /**
   * Previous and Next move by exactly one slide, and they move precisely
   * when the slideshow runs and the boundary is not reached, showing the
   * new slide; otherwise nothing changes and nothing is shown.
   */
  lemma PreviousNextStepByOne(slideCount: nat, s: SlideState)
    ensures var t := ControlPresentation(Some(Previous), slideCount, s);
      if s.active && s.current > 1
      then t == Transition(SlideState(s.current - 1, true), Some(Show(s.current - 1)))
      else t == Transition(s, None)
    ensures var t := ControlPresentation(Some(Next), slideCount, s);
      if s.active && s.current < slideCount
      then t == Transition(SlideState(s.current + 1, true), Some(Show(s.current + 1)))
      else t == Transition(s, None)
  {
  }

  /**
   * Start with no slides loaded still selects slide 1, which lies outside
   * the slides: the range invariant needs at least one slide.
   */
  lemma StartWithoutSlidesLeavesRange(s: SlideState)
    ensures !InRange(ControlPresentation(Some(Start), 0, s).state, 0)
    ensures ControlPresentation(Some(Start), 0, s).command == None
  {
  }

  /** The state after a sequence of gestures, starting from `s`. */
  function Replay(s: SlideState, gestures: seq<Option<Gesture>>, slideCount: nat): (r: SlideState)
    ensures 1 <= slideCount && InRange(s, slideCount) ==> InRange(r, slideCount)
    decreases |gestures|
  {
    if gestures == [] then s
    else
      var before := Replay(s, gestures[..|gestures| - 1], slideCount);
      ControlPresentation(gestures[|gestures| - 1], slideCount, before).state
  }

  /** Frames without a gesture, however many, leave the slideshow as it was. */
  lemma {:induction false} NoGestureKeepsState(s: SlideState, gestures: seq<Option<Gesture>>, slideCount: nat)
    requires forall i :: 0 <= i < |gestures| ==> gestures[i] == None
    ensures Replay(s, gestures, slideCount) == s
    decreases |gestures|
  {
    if gestures != [] {
      NoGestureKeepsState(s, gestures[..|gestures| - 1], slideCount);
    }
  }

  /**
   * The stand-alone loop of gesture_controll.py: per camera frame, detect
   * the gesture of the hand (if any) and apply it to the nine-slide show.
   * The loop ends when the frames run out (the camera fails or `q` is hit).
   */
  method GestureLoop(frames: seq<Option<Hand>>) returns (s: SlideState)
    ensures s == Replay(Inactive, seq(|frames|, i requires 0 <= i < |frames| => DetectGesture(frames[i])), DemoSlideCount)
    ensures InRange(s, DemoSlideCount)
  {
    var gestures := seq(|frames|, i requires 0 <= i < |frames| => DetectGesture(frames[i]));
    s := Inactive;
    var i := 0;
    while i < |frames|
      invariant 0 <= i <= |frames|
      invariant s == Replay(Inactive, gestures[..i], DemoSlideCount)
      invariant InRange(s, DemoSlideCount)
    {
      var gesture := DetectGesture(frames[i]);
      var t := ControlPresentation(gesture, DemoSlideCount, s);
      s := t.state;
      assert gestures[..i + 1][..i] == gestures[..i];
      i := i + 1;
    }
    assert gestures[..|frames|] == gestures;
  }
}
