/**
 * The per-frame session of main.py: an authentication phase with a budget
 * of ten face checks that fails open, then gesture navigation gated by the
 * presenter's emotion. The collaborators' answers for a frame (the face
 * match, the tracked hand, the analyser's label) arrive as a `Frame`.
 */
module Session {
  import opened Wrappers
  import opened GestureClassifier
  import opened SlideControl
  import opened EmotionGate

  const MaxAuthAttempts: nat := 10
  /** main.py refuses to start unless all nine slide images 1.jpg .. 9.jpg load. */
  const SlideCount: nat := 9

  /** What the collaborators report for one camera frame. */
  datatype Frame = Frame(verified: bool, hand: Option<Hand>, analysis: Option<string>)

  datatype SessionState = SessionState(authenticated: bool, authAttempts: nat, slides: SlideState)

  datatype FrameResult = FrameResult(state: SessionState, command: Option<Command>)

  const Initial: SessionState := SessionState(false, 0, Inactive)

  /** The session invariant: budget respected, unauthenticated only within it, slides in range. */
  predicate Valid(s: SessionState)
  {
    && s.authAttempts <= MaxAuthAttempts
    && (!s.authenticated ==> s.authAttempts < MaxAuthAttempts)
    && InRange(s.slides, SlideCount)
  }

  /** A frame spent on face verification rather than on gestures. */
  predicate IsAuthFrame(s: SessionState)
  {
    !s.authenticated && s.authAttempts < MaxAuthAttempts
  }

  /** One pass of the main loop's body. */
  function NextFrame(s: SessionState, f: Frame): (r: FrameResult)
    ensures Valid(s) ==> Valid(r.state)
    ensures s.authenticated ==> r.state.authenticated
    ensures r.state.authAttempts == s.authAttempts + (if IsAuthFrame(s) then 1 else 0)
  {
    if IsAuthFrame(s) then
      var attempts := s.authAttempts + 1;
      var authenticated := if attempts == MaxAuthAttempts then true else f.verified;
      FrameResult(SessionState(authenticated, attempts, s.slides), None)
    else
      var gesture := DetectGesture(f.hand);
      var emotion := DetectEmotion(f.analysis);
      var pause := HandleEmotionPause(emotion, s.slides.active);
      var paused := SlideState(s.slides.current, pause.active);
      if emotion != Sad then
        var t := ControlPresentation(gesture, SlideCount, paused);
        FrameResult(s.(slides := t.state), t.command)
      else
        FrameResult(s.(slides := paused), pause.command)
  }

  lemma InitialValid()
    ensures Valid(Initial) && IsAuthFrame(Initial)
  {
  }

  /**
   * An authentication frame looks only at the face match: gesture and
   * emotion are not consulted, the slides do not move, nothing is shown.
   */
  lemma AuthFrameTouchesOnlyAuth(s: SessionState, f: Frame, f': Frame)
    requires IsAuthFrame(s) && f.verified == f'.verified
    ensures NextFrame(s, f) == NextFrame(s, f')
    ensures NextFrame(s, f).state.slides == s.slides && NextFrame(s, f).command == None
    ensures NextFrame(s, f).state.authenticated == (f.verified || s.authAttempts + 1 == MaxAuthAttempts)
  {
  }

  /**
   * A sad frame after authentication stops the slideshow and keeps the
   * slide number, whatever the hand shows.
   */
  lemma SadFramePauses(s: SessionState, f: Frame)
    requires !IsAuthFrame(s) && DetectEmotion(f.analysis) == Sad
    ensures NextFrame(s, f).state == s.(slides := SlideState(s.slides.current, false))
    ensures NextFrame(s, f).command == (if s.slides.active then Some(Clear) else None)
  {
  }

  /** Any other frame after authentication is exactly one step of the slide machine. */
  lemma HappyFrameNavigates(s: SessionState, f: Frame)
    requires !IsAuthFrame(s) && DetectEmotion(f.analysis) != Sad
    ensures var t := ControlPresentation(DetectGesture(f.hand), SlideCount, s.slides);
      NextFrame(s, f) == FrameResult(s.(slides := t.state), t.command)
  {
  }

  /** End to end: a peace sign on a calm authenticated frame starts the show at slide 1. */
  lemma PeaceSignFrameStarts(s: SessionState, f: Frame)
    requires !IsAuthFrame(s) && DetectEmotion(f.analysis) != Sad
    requires f.hand.Some? && IsPeaceSign(f.hand.value)
    ensures NextFrame(s, f) == FrameResult(s.(slides := SlideState(1, true)), Some(Show(1)))
  {
    HappyFrameNavigates(s, f);
  }

  /** End to end: an open palm on a calm authenticated frame stops the show. */
  lemma OpenPalmFrameEnds(s: SessionState, f: Frame)
    requires !IsAuthFrame(s) && DetectEmotion(f.analysis) != Sad
    requires f.hand.Some? && IsOpenPalm(f.hand.value)
    ensures NextFrame(s, f) == FrameResult(s.(slides := Inactive), Some(Clear))
  {
    HappyFrameNavigates(s, f);
  }

  /** End to end: a calm authenticated frame without a tracked hand changes nothing. */
  lemma HandlessFrameKeepsSlides(s: SessionState, f: Frame)
    requires !IsAuthFrame(s) && DetectEmotion(f.analysis) != Sad && f.hand.None?
    ensures NextFrame(s, f) == FrameResult(s, None)
  {
    HappyFrameNavigates(s, f);
  }

  /** The session state after a sequence of frames, starting from `s`. */
  function RunFrames(s: SessionState, frames: seq<Frame>): (r: SessionState)
    ensures Valid(s) ==> Valid(r)
    ensures s.authenticated ==> r.authenticated
    ensures r.authAttempts >= s.authAttempts
    decreases |frames|
  {
    if frames == [] then s
    else NextFrame(RunFrames(s, frames[..|frames| - 1]), frames[|frames| - 1]).state
  }

  /** The window update of each frame of a run starting from `s`, one per frame. */
  function FrameCommands(s: SessionState, frames: seq<Frame>): (cs: seq<Option<Command>>)
    ensures |cs| == |frames|
    decreases |frames|
  {
    if frames == [] then []
    else
      var prefix := frames[..|frames| - 1];
      FrameCommands(s, prefix) + [NextFrame(RunFrames(s, prefix), frames[|frames| - 1]).command]
  }

  /** Until authentication succeeds, every frame uses up exactly one attempt. */
  lemma {:induction false} AttemptsCountFrames(s: SessionState, frames: seq<Frame>)
    requires Valid(s)
    ensures var r := RunFrames(s, frames);
      r.authenticated || r.authAttempts == s.authAttempts + |frames|
    decreases |frames|
  {
    if frames != [] {
      AttemptsCountFrames(s, frames[..|frames| - 1]);
    }
  }

  /**
   * Fail-open: once the remaining attempts have been spent, the presenter
   * counts as authenticated, whatever the face matches said.
   */
  lemma {:induction false} FailOpen(s: SessionState, frames: seq<Frame>)
    requires Valid(s) && |frames| >= MaxAuthAttempts - s.authAttempts
    ensures RunFrames(s, frames).authenticated
  {
    AttemptsCountFrames(s, frames);
  }

  /** From start-up, ten frames always end the authentication phase. */
  lemma {:induction false} AuthenticatedAfterTenFrames(frames: seq<Frame>)
    requires |frames| >= MaxAuthAttempts
    ensures RunFrames(Initial, frames).authenticated
  {
    FailOpen(Initial, frames);
  }

  /** The mutable session state of main.py's loop. */
  class Presenter {
    var authenticated: bool
    var authAttempts: nat
    var currentSlide: int
    var slideshowActive: bool

    function State(): (s: SessionState)
      reads this
    {
      SessionState(authenticated, authAttempts, SlideState(currentSlide, slideshowActive))
    }

    constructor ()
      ensures State() == Initial && Valid(State())
    {
      authenticated := false;
      authAttempts := 0;
      currentSlide := 0;
      slideshowActive := false;
    }

    /** One iteration of the loop body; `command` is the slideshow window update. */
    method Step(f: Frame) returns (command: Option<Command>)
      modifies this
      ensures FrameResult(State(), command) == NextFrame(old(State()), f)
      ensures Valid(old(State())) ==> Valid(State())
    {
      if !authenticated && authAttempts < MaxAuthAttempts {
        authenticated := f.verified;
        authAttempts := authAttempts + 1;
        if authAttempts == MaxAuthAttempts {
          authenticated := true;
        }
        command := None;
      } else {
        var gesture := DetectGesture(f.hand);
        var emotion := DetectEmotion(f.analysis);
        var pause := HandleEmotionPause(emotion, slideshowActive);
        slideshowActive := pause.active;
        command := pause.command;
        if emotion != Sad {
          var t := ControlPresentation(gesture, SlideCount, SlideState(currentSlide, slideshowActive));
          currentSlide, slideshowActive := t.state.current, t.state.active;
          command := t.command;
        }
      }
    }

    /**
     * The main loop over the frames the camera delivers; it ends when they
     * run out (a failed read or the quit key). `commands[i]` is the window
     * update of frame i.
     */
    method Run(frames: seq<Frame>) returns (commands: seq<Option<Command>>)
      modifies this
      ensures State() == RunFrames(old(State()), frames)
      ensures commands == FrameCommands(old(State()), frames)
      ensures Valid(old(State())) ==> Valid(State())
    {
      commands := [];
      var i := 0;
      while i < |frames|
        invariant 0 <= i <= |frames|
        invariant State() == RunFrames(old(State()), frames[..i])
        invariant commands == FrameCommands(old(State()), frames[..i])
      {
        assert frames[..i + 1][..i] == frames[..i];
        var command := Step(frames[i]);
        commands := commands + [command];
        i := i + 1;
      }
      assert frames[..|frames|] == frames;
    }
  }
}
