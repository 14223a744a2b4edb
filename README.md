# Smart Presentation Assistant — verified model of its decision logic

The Smart Presentation Assistant drives a slideshow from a webcam: it checks
the presenter's face against a reference image, reads hand gestures to move
between slides, and pauses the slideshow when the presenter looks sad, angry
or afraid. Hand tracking, face matching and emotion analysis are pretrained
third-party models; the repository's own logic is the layer around them, and
that layer is modelled here:

- `GestureClassifier` (gesture_controll.py, `classify_gesture`): counts the
  extended fingers of a 21-landmark hand, computes the index–middle spread
  and the thumb–wrist offset, and applies four threshold rules in priority
  order to yield End, Start, Previous, Next or no gesture.
- `SlideControl` (gesture_controll.py, `control_presentation` and the
  file's stand-alone loop): the slide-number / active-flag state machine.
  Window updates become `Show(n)` and `Clear` commands.
- `EmotionGate` (emotion_detectionn.py): the collapse of the analyser's
  label to "happy"/"sad", and the pause rule.
- `Session` (main.py): one frame of the main loop as a function
  `NextFrame`, its iteration `RunFrames`, and the class `Presenter` whose
  `Step` and `Run` methods update the loop's four variables in place.

The collaborators' answers are parameters: the face match is a `bool`, the
tracked hand an optional landmark sequence, the emotion analysis an optional
label (`None` stands for an analysis that raised).

A sad frame only clears the active flag and keeps the slide number
(emotion_detectionn.py:25-35, main.py:100-102); nothing resets it to slide 0,
so the range invariant is `0 <= current <= slides && (active ==> 1 <= current)`.

## Model

| member | source | states |
|---|---|---|
| GestureClassifier.CountTrue | Smart_Presentation_Assistant/gesture_controll.py:77 | the count lies between 0 and the number of flags; it is 0 exactly when no flag is set and maximal exactly when all are |
| GestureClassifier.ExtendedFingers | Smart_Presentation_Assistant/gesture_controll.py:71-77 | at most four fingers are counted (index, middle, ring, pinky) |
| GestureClassifier.FingerSpread | Smart_Presentation_Assistant/gesture_controll.py:78 | the spread is never negative and is 0 when no finger is extended |
| GestureClassifier.Classify | Smart_Presentation_Assistant/gesture_controll.py:58-112 | End exactly for an open palm (3+ fingers, spread > 0.03) whatever the thumb; Start exactly for index+middle up and ring+pinky down, even when the thumb is far off; Previous exactly for a fist with thumb offset < -0.05; Next exactly for a fist with offset > 0.05; no gesture otherwise; the diagnostics record holds the computed count, thumb offset, spread and finger states |
| GestureClassifier.PeaceSignCount | Smart_Presentation_Assistant/gesture_controll.py:98 | the peace-sign pattern has exactly two extended fingers, so the count test of the Start rule is implied by the pattern |
| GestureClassifier.ThumbExcludedFromCount | Smart_Presentation_Assistant/gesture_controll.py:71-78 | hands that agree on the eight finger tip/knuckle joints have equal finger states, count and spread; the thumb is not counted |
| GestureClassifier.EndAndStartIgnoreThumb | Smart_Presentation_Assistant/gesture_controll.py:94-101 | moving only the thumb tip and the wrist changes neither whether End fires nor whether Start fires |
| GestureClassifier.DetectGesture | Smart_Presentation_Assistant/gesture_controll.py:47-56 | no tracked hand gives no gesture; a tracked hand gives exactly its classification |
| SlideControl.ControlPresentation | Smart_Presentation_Assistant/gesture_controll.py:114-137 | no gesture changes nothing; only Start turns the slideshow on; only End closes the window; Previous/Next keep the active flag; a shown slide is the new current slide and lies within the slides; with at least one slide the range invariant is preserved |
| SlideControl.StartAndEndFromAnyState | Smart_Presentation_Assistant/gesture_controll.py:118-134 | from any state, Start gives slide 1 running and shows slide 1 exactly when slides are loaded; End gives slide 0 stopped and closes the window |
| SlideControl.PreviousNextStepByOne | Smart_Presentation_Assistant/gesture_controll.py:124-131 | Previous/Next move by exactly one slide precisely when the slideshow runs and the first/last slide is not reached, and then show the new slide; otherwise state and display are untouched |
| SlideControl.StartWithoutSlidesLeavesRange | Smart_Presentation_Assistant/gesture_controll.py:118-122 | with no slides loaded, Start still selects slide 1, outside the range, and shows nothing |
| SlideControl.Replay | Smart_Presentation_Assistant/gesture_controll.py:171-181 | repeated application keeps the range invariant when there is at least one slide |
| SlideControl.NoGestureKeepsState | Smart_Presentation_Assistant/gesture_controll.py:115-116 | any number of frames without a gesture leaves the slideshow state unchanged |
| SlideControl.GestureLoop | Smart_Presentation_Assistant/gesture_controll.py:161-181 | the loop's final state is the replay of the detected gestures over the nine slides, and it is in range |
| EmotionGate.DetectEmotion | Smart_Presentation_Assistant/emotion_detectionn.py:5-23 | the collapsed emotion is always "happy" or "sad" |
| EmotionGate.SadIffNegativeLabel | Smart_Presentation_Assistant/emotion_detectionn.py:12-18 | the result is "sad" exactly for a successful analysis whose lower-cased label is sad, angry or fear |
| EmotionGate.FailureAndUnknownAreHappy | Smart_Presentation_Assistant/emotion_detectionn.py:17-23 | a failed analysis and any label outside the negative list give "happy" |
| EmotionGate.DetectIgnoresCase | Smart_Presentation_Assistant/emotion_detectionn.py:12-18 | labels are compared after lower-casing ("Angry" and "FEAR" are sad, "Disgust" is happy) |
| EmotionGate.LowerIdempotent | Smart_Presentation_Assistant/emotion_detectionn.py:12 | lower-casing an already lower-cased label changes nothing |
| EmotionGate.CaseInsensitive | Smart_Presentation_Assistant/emotion_detectionn.py:12-18 | any two labels equal after lower-casing collapse to the same emotion |
| EmotionGate.LowerCasedLabelAgrees | Smart_Presentation_Assistant/emotion_detectionn.py:12-18 | every label collapses to the same emotion as its lower-cased form |
| EmotionGate.HandleEmotionPause | Smart_Presentation_Assistant/emotion_detectionn.py:25-35 | never turns the slideshow on; "sad" always leaves it off; any other emotion returns the flag unchanged with no window update; the window is closed exactly when a running slideshow is stopped |
| EmotionGate.PauseIdempotent | Smart_Presentation_Assistant/emotion_detectionn.py:25-35 | applying the pause rule twice equals applying it once |
| Session.NextFrame | Smart_Presentation_Assistant/main.py:90-103 | the session invariant is preserved; authentication is never withdrawn; the attempt counter rises by one on an authentication frame and stays put otherwise |
| Session.InitialValid | Smart_Presentation_Assistant/main.py:74-79 | the start-up state (unauthenticated, 0 attempts, slide 0, stopped) satisfies the invariant and begins with an authentication frame |
| Session.AuthFrameTouchesOnlyAuth | Smart_Presentation_Assistant/main.py:90-96 | an authentication frame ignores hand and emotion, leaves the slides alone, shows nothing, and authenticates on a match or on the tenth attempt |
| Session.SadFramePauses | Smart_Presentation_Assistant/main.py:99-102 | after authentication a sad frame stops the slideshow, keeps the slide number and closes a running window, whatever the gesture |
| Session.HappyFrameNavigates | Smart_Presentation_Assistant/main.py:98-102 | after authentication any other frame is exactly one step of the slide machine on the detected gesture |
| Session.PeaceSignFrameStarts | Smart_Presentation_Assistant/main.py:98-102 | after authentication, a non-sad frame whose tracked hand shows the peace sign starts the slideshow at slide 1 and shows it |
| Session.OpenPalmFrameEnds | Smart_Presentation_Assistant/main.py:98-102 | after authentication, a non-sad frame whose tracked hand shows an open palm stops the slideshow at slide 0 and closes the window |
| Session.HandlessFrameKeepsSlides | Smart_Presentation_Assistant/main.py:98-102 | after authentication, a non-sad frame without a tracked hand leaves the slides and the window alone |
| Session.RunFrames | Smart_Presentation_Assistant/main.py:82-107 | over any frame sequence the invariant holds (attempts at most 10, slides in range), authentication stays on once on, and attempts never decrease |
| Session.AttemptsCountFrames | Smart_Presentation_Assistant/main.py:90-92 | until authenticated, each frame uses exactly one attempt |
| Session.FailOpen | Smart_Presentation_Assistant/main.py:94-96 | once the remaining attempts are spent the presenter is authenticated, whatever the face matches returned |
| Session.AuthenticatedAfterTenFrames | Smart_Presentation_Assistant/main.py:78-96 | from start-up, any ten frames end in the authenticated state |
| Session.Presenter.constructor | Smart_Presentation_Assistant/main.py:74-79 | the loop variables start unauthenticated, at 0 attempts, slide 0, stopped |
| Session.Presenter.Step | Smart_Presentation_Assistant/main.py:90-103 | the in-place update of the four loop variables equals `NextFrame` and keeps the invariant |
| Session.Presenter.Run | Smart_Presentation_Assistant/main.py:82-107 | the loop's final state is `RunFrames` of the frames, each frame's window update is recorded, and the invariant is kept |

## Left out

- Voice output (`init_voice_engine`, `voice_feedback`, gesture_controll.py:11-45): a global speech handle with driver choice, retries and sleeps; every call is treated as a no-op, as are all `print` calls.
- Hand tracking and landmark drawing in `detect_gesture` (gesture_controll.py:47-56): the tracker's output is the input `Option<Hand>`; with one hand at most, only the first hand is classified.
- Face verification (face_auth.py:6-27) and emotion analysis (emotion_detectionn.py:7-11): opaque pretrained models; their results are the `verified` and `analysis` fields of `Frame`. face_auth.py is not part of this model beyond that boolean.
- All drawing and text overlay (`display_gesture_feedback`, ui.py, `display_authentication_status`, the `putText` in `handle_emotion_pause`): UI that returns nothing to the logic. The Diagnostics record keeps the values shown, with the finger states as four booleans instead of a formatted string.
- presentation_nav.py: key presses and slide-deck loading through libraries not visible here.
- Start-up in main.py (path checks, `load_slide_images` at main.py:22-36, webcam probing at main.py:59-69, frame undistortion, the quit key): I/O. Only their consequence is kept: nine slides, and the loop ends when the frames run out.
- GestureClassifier.Classify: coordinates are exact reals and the thresholds 0.03 and 0.05 exact decimals; binary floating-point rounding at the thresholds is not modelled.
- EmotionGate.DetectEmotion: lower-casing is modelled for ASCII letters only; Python's full Unicode `lower()` is not.
- SlideControl.ControlPresentation: gestures are an enumeration, so a label other than the four gesture names (which the classifier never produces) cannot be passed in; the missing gesture is `None`.
- SlideControl.ControlPresentation: the image lookup behind `Show(n)` is not modelled; outside the range invariant the source's list indexing would raise or wrap around to the end of the list, which the invariant rules out.
